/** The server configuration: its schema with uniquely named endpoints, the event handler that
    builds it while the text is parsed, and the proof that loading accepts exactly the JSON values
    of the schema and yields their decoding. */
module ServerConfiguration {
  import opened ConfigurationSchema
  import opened JsonGrammar
  import opened Wrappers
  import JsonParser
  import JsonReader

  datatype Level = Trace | Debug | Info | Warning | ErrorLevel | Critical

  /** Transport and protocol have one value each, `tcp` and `json`. */
  datatype Endpoint = Endpoint(name: string, address: string, port: nat)

  datatype Configuration = Configuration(
    version: nat,
    endpoints: seq<Endpoint>,
    console: bool,
    level: Level,
    logConsole: bool,
    metrics: bool,
    project: string)

  const CURRENT_VERSION: nat := 1
  const ROOT_NAMES := {"version", "server", "logging", "telemetry", "project"}
  const SERVER_NAMES := {"endpoints", "console"}
  const ENDPOINT_NAMES := {"name", "transport", "protocol", "address", "port"}
  const LOGGING_NAMES := {"level", "console"}
  const TELEMETRY_NAMES := {"metrics"}
  const PROJECT_NAMES := {"path"}

  // ---------- The meaning of a JSON value as a configuration ----------

  const LEVELS: map<string, Level> :=
    map["trace" := Trace, "debug" := Debug, "info" := Info, "warning" := Warning, "error" := ErrorLevel,
        "critical" := Critical]

  predicate IsU32(v: Json) { v.Int? && 0 <= v.n <= MAX_U32 }
  predicate IsText(v: Json) { v.Str? && v.s != "" }
  predicate IsPort(v: Json) { v.Int? && 1 <= v.n <= 65535 }
  predicate IsLevel(v: Json) { v.Str? && v.s in LEVELS }

  predicate EndpointMembers(m: seq<Member>) {
    && ExactKeys(m, ENDPOINT_NAMES)
    && IsText(Find(m, "name")) && Find(m, "transport") == Str("tcp") && Find(m, "protocol") == Str("json")
    && IsText(Find(m, "address")) && IsPort(Find(m, "port"))
  }

  predicate IsEndpoint(v: Json) { v.Obj? && EndpointMembers(v.members) }

  function EndpointOf(v: Json): Endpoint
    requires IsEndpoint(v)
  {
    Endpoint(Find(v.members, "name").s, Find(v.members, "address").s, Find(v.members, "port").n)
  }

  function EndpointsOf(items: seq<Json>): (r: seq<Endpoint>)
    requires forall i | i in items :: IsEndpoint(i)
    ensures |r| == |items|
  {
    if items == [] then [] else [EndpointOf(items[0])] + EndpointsOf(items[1..])
  }

  predicate DistinctNames(s: seq<Endpoint>) { forall i, j :: 0 <= i < j < |s| ==> s[i].name != s[j].name }

  predicate AreEndpoints(v: Json) { v.Arr? && forall i | i in v.items :: IsEndpoint(i) }

  predicate IsServer(v: Json) {
    && v.Obj? && ExactKeys(v.members, SERVER_NAMES) && Find(v.members, "console").Bool?
    && AreEndpoints(Find(v.members, "endpoints"))
    && DistinctNames(EndpointsOf(Find(v.members, "endpoints").items))
  }

  predicate IsLogging(v: Json) {
    && v.Obj? && ExactKeys(v.members, LOGGING_NAMES)
    && IsLevel(Find(v.members, "level")) && Find(v.members, "console").Bool?
  }

  predicate IsTelemetry(v: Json) {
    v.Obj? && ExactKeys(v.members, TELEMETRY_NAMES) && Find(v.members, "metrics").Bool?
  }

  predicate IsProjectReference(v: Json) {
    v.Obj? && ExactKeys(v.members, PROJECT_NAMES) && IsText(Find(v.members, "path"))
  }

  predicate IsConfiguration(v: Json) {
    && v.Obj? && ExactKeys(v.members, ROOT_NAMES) && IsU32(Find(v.members, "version"))
    && IsServer(Find(v.members, "server")) && IsLogging(Find(v.members, "logging"))
    && IsTelemetry(Find(v.members, "telemetry")) && IsProjectReference(Find(v.members, "project"))
  }

  /** The decoding, with the project path still as written. */
  function Decode(v: Json): Configuration
    requires IsConfiguration(v)
  {
    var server := Find(v.members, "server").members;
    var logging := Find(v.members, "logging").members;
    Configuration(
      Find(v.members, "version").n,
      EndpointsOf(Find(server, "endpoints").items),
      Find(server, "console").b,
      LEVELS[Find(logging, "level").s],
      Find(logging, "console").b,
      Find(Find(v.members, "telemetry").members, "metrics").b,
      Find(Find(v.members, "project").members, "path").s)
  }

  // ---------- The schema of the handler ----------

  datatype Context = Root | Server | Endpoints | EndpointObject | Logging | Telemetry | Project

  /** The candidate, whose project path is the text read, and the endpoint being read. */
  datatype Draft = Draft(candidate: Configuration, endpoint: Endpoint)

  const NO_ENDPOINT := Endpoint("", "", 0)
  const BLANK := Draft(Configuration(0, [], true, Info, true, true, ""), NO_ENDPOINT)

  function Properties(c: Context): set<string> {
    match c
    case Root => ROOT_NAMES
    case Server => SERVER_NAMES
    case Endpoints => {}
    case EndpointObject => ENDPOINT_NAMES
    case Logging => LOGGING_NAMES
    case Telemetry => TELEMETRY_NAMES
    case Project => PROJECT_NAMES
  }

  function ObjectAt(c: Context, p: Option<string>): Option<Context> {
    if c == Root then
      if p == Some("server") then Some(Server)
      else if p == Some("logging") then Some(Logging)
      else if p == Some("telemetry") then Some(Telemetry)
      else if p == Some("project") then Some(Project)
      else None
    else if c == Endpoints then Some(EndpointObject)
    else None
  }

  function ArrayAt(c: Context, p: Option<string>): Option<Context> {
    if c == Server && p == Some("endpoints") then Some(Endpoints) else None
  }

  function BeginEndpoint(c: Context, d: Draft): Draft { d.(endpoint := NO_ENDPOINT) }

  function LevelOf(s: string): Level {
    if s == "trace" then Trace
    else if s == "debug" then Debug
    else if s == "info" then Info
    else if s == "warning" then Warning
    else if s == "error" then ErrorLevel
    else Critical
  }

  lemma {:induction false} LevelsAgree(s: string)
    ensures
      s in LEVELS
      <==> s == "trace" || s == "debug" || s == "info" || s == "warning" || s == "error" || s == "critical"
    ensures s in LEVELS ==> LevelOf(s) == LEVELS[s]
  {}

  predicate HasName(s: seq<Endpoint>, name: string) { exists i :: 0 <= i < |s| && s[i].name == name }

  function FinishEndpoint(c: Context, d: Draft): Outcome<Draft> {
    if HasName(d.candidate.endpoints, d.endpoint.name) then Refused(DuplicateEndpointName)
    else Accepted(d.(candidate := d.candidate.(endpoints := d.candidate.endpoints + [d.endpoint])))
  }

  function ReadText(c: Context, p: Option<string>, s: string, d: Draft): Outcome<Draft> {
    if c == EndpointObject then
      if p == Some("name") then
        if s == "" then Refused(InvalidEndpoint) else Accepted(d.(endpoint := d.endpoint.(name := s)))
      else if p == Some("transport") then if s == "tcp" then Accepted(d) else Refused(InvalidEndpoint)
      else if p == Some("protocol") then if s == "json" then Accepted(d) else Refused(InvalidEndpoint)
      else if p == Some("address") then
        if s == "" then Refused(InvalidEndpoint) else Accepted(d.(endpoint := d.endpoint.(address := s)))
      else Refused(WrongFieldType)
    else if c == Logging && p == Some("level") then
      if IsLevel(Str(s)) then Accepted(d.(candidate := d.candidate.(level := LevelOf(s)))) else Refused(InvalidLogLevel)
    else if c == Project && p == Some("path") then
      if s == "" then Refused(InvalidProjectPath) else Accepted(d.(candidate := d.candidate.(project := s)))
    else Refused(WrongFieldType)
  }

  function ReadInteger(c: Context, p: Option<string>, n: int, d: Draft): Outcome<Draft> {
    if c == Root && p == Some("version") then
      if 0 <= n <= MAX_U32 then Accepted(d.(candidate := d.candidate.(version := n))) else Refused(WrongFieldType)
    else if c == EndpointObject && p == Some("port") then
      if 1 <= n <= 65535 then Accepted(d.(endpoint := d.endpoint.(port := n))) else Refused(InvalidEndpoint)
    else Refused(WrongFieldType)
  }

  function ReadBoolean(c: Context, p: Option<string>, b: bool, d: Draft): Outcome<Draft> {
    if c == Server && p == Some("console") then Accepted(d.(candidate := d.candidate.(console := b)))
    else if c == Logging && p == Some("console") then Accepted(d.(candidate := d.candidate.(logConsole := b)))
    else if c == Telemetry && p == Some("metrics") then Accepted(d.(candidate := d.candidate.(metrics := b)))
    else Refused(WrongFieldType)
  }

  function ReadLeaf(c: Context, p: Option<string>, v: Json, d: Draft): Outcome<Draft> {
    match v
    case Str(s) => ReadText(c, p, s, d)
    case Int(n) => ReadInteger(c, p, n, d)
    case Bool(b) => ReadBoolean(c, p, b, d)
    case _ => Refused(WrongFieldType)
  }

  function ServerSchema(): Schema<Context, Draft> {
    Schema(Root, Properties, ObjectAt, ArrayAt, c => c == Endpoints, c => c == EndpointObject, BeginEndpoint,
           FinishEndpoint, ReadLeaf)
  }

  function Rank(c: Context): nat {
    match c
    case Root => 0
    case Endpoints => 2
    case EndpointObject => 3
    case _ => 1
  }

  function Owner(c: Context): (Context, string) {
    match c
    case Server => (Root, "server")
    case Logging => (Root, "logging")
    case Telemetry => (Root, "telemetry")
    case Project => (Root, "project")
    case _ => (Server, "endpoints")
  }

  lemma {:induction false} ServerSchemaIsWellFormed()
    ensures WellFormed(ServerSchema(), Rank, Owner)
  {
    hide ReadLeaf, FinishEndpoint, Properties;
  }

  lemma {:induction false} ServerNeverRefusesDepth()
    ensures SchemaNeverTooDeep(ServerSchema())
  {}

  // ---------- Endpoints ----------

  function EndpointFrame(d: Draft): Draft { d.(endpoint := NO_ENDPOINT) }

  function EndpointPart(name: string, d: Draft): Draft {
    if name == "name" then BLANK.(endpoint := NO_ENDPOINT.(name := d.endpoint.name))
    else if name == "address" then BLANK.(endpoint := NO_ENDPOINT.(address := d.endpoint.address))
    else if name == "port" then BLANK.(endpoint := NO_ENDPOINT.(port := d.endpoint.port))
    else BLANK
  }

  function EndpointAllows(name: string, v: Json, d: Draft): bool {
    if name == "name" || name == "address" then IsText(v)
    else if name == "transport" then v == Str("tcp")
    else if name == "protocol" then v == Str("json")
    else IsPort(v)
  }

  function EndpointWrite(name: string, v: Json, d: Draft): Draft {
    if name == "name" && v.Str? then d.(endpoint := d.endpoint.(name := v.s))
    else if name == "address" && v.Str? then d.(endpoint := d.endpoint.(address := v.s))
    else if name == "port" && IsPort(v) then d.(endpoint := d.endpoint.(port := v.n))
    else d
  }

  lemma {:induction false} EndpointDividesAt(name: string, v: Json, d: Draft)
    requires name in ENDPOINT_NAMES
    ensures
      DividesAt(ServerSchema(), EndpointObject, Division(EndpointFrame, EndpointPart, EndpointAllows, EndpointWrite),
                name, v, d)
  {}

  lemma {:induction false} EndpointDivides()
    ensures
      Divides(ServerSchema(), EndpointObject, Division(EndpointFrame, EndpointPart, EndpointAllows, EndpointWrite))
  {
    hide DividesAt;
    var cut := Division(EndpointFrame, EndpointPart, EndpointAllows, EndpointWrite);
    forall name, v, d | name in ENDPOINT_NAMES ensures DividesAt(ServerSchema(), EndpointObject, cut, name, v, d) {
      EndpointDividesAt(name, v, d);
    }
  }

  lemma {:induction false} EndpointAllowed(m: seq<Member>, d: Draft)
    requires ExactKeys(m, ENDPOINT_NAMES)
    ensures
      EndpointMembers(m)
      == forall name | name in ENDPOINT_NAMES :: EndpointAllows(name, Find(m, name), EndpointPart(name, d))
  {
    hide Find;
    assert "name" in ENDPOINT_NAMES && "address" in ENDPOINT_NAMES && "transport" in ENDPOINT_NAMES;
    assert "protocol" in ENDPOINT_NAMES && "port" in ENDPOINT_NAMES;
  }

  lemma {:induction false} EndpointsHaveKeys(m: seq<Member>)
    ensures EndpointMembers(m) ==> ExactKeys(m, ENDPOINT_NAMES)
  {}

  lemma {:induction false} EvalEndpointMembers(m: seq<Member>, d: Draft)
    ensures
      EvalMembers(ServerSchema(), EndpointObject, m, {}, d)
      == if EndpointMembers(m) then Some(d.(endpoint := EndpointOf(Obj(m)))) else None
  {
    hide EvalMembers, EndpointAllows, EndpointMembers, EndpointPart, EndpointWrite, EndpointFrame, ExactKeys, Find;
    hide Divides, IsEndpoint;
    var cut := Division(EndpointFrame, EndpointPart, EndpointAllows, EndpointWrite);
    var s := ServerSchema();
    EndpointDivides();
    ObjectInAnyOrder(s, EndpointObject, cut, m, d);
    var r := EvalMembers(s, EndpointObject, m, {}, d);
    assert s.properties(EndpointObject) == ENDPOINT_NAMES;
    EndpointsHaveKeys(m);
    if ExactKeys(m, ENDPOINT_NAMES) { EndpointAllowed(m, d); }
    if r.Some? {
      EndpointParts(m, d, r.value);
    }
  }

  lemma {:induction false} EndpointParts(m: seq<Member>, before: Draft, after: Draft)
    requires EndpointMembers(m) && EndpointFrame(after) == EndpointFrame(before)
    requires forall name | name in ENDPOINT_NAMES ::
      EndpointPart(name, after) == EndpointWrite(name, Find(m, name), EndpointPart(name, before))
    ensures IsEndpoint(Obj(m)) && after == before.(endpoint := EndpointOf(Obj(m)))
  {
    assert EndpointPart("name", after) == EndpointWrite("name", Find(m, "name"), EndpointPart("name", before));
    assert EndpointPart("address", after) == EndpointWrite("address", Find(m, "address"), EndpointPart("address", before));
    assert EndpointPart("port", after) == EndpointWrite("port", Find(m, "port"), EndpointPart("port", before));
    assert EndpointFrame(after) == EndpointFrame(before);
  }

  lemma {:induction false} EvalEndpoint(v: Json, d: Draft)
    ensures
      var r := Eval(ServerSchema(), Endpoints, None, v, d);
      && r.Some? == (IsEndpoint(v) && !HasName(d.candidate.endpoints, EndpointOf(v).name))
      && (r.Some? ==> r.value.candidate == d.candidate.(endpoints := d.candidate.endpoints + [EndpointOf(v)]))
  {
    hide EvalMembers, EndpointMembers, HasName;
    if v.Obj? { EvalEndpointMembers(v.members, BeginEndpoint(EndpointObject, d)); }
  }

  /** More endpoints can join when they neither repeat a name nor share one with those there. */
  predicate Joinable(there: seq<Endpoint>, more: seq<Endpoint>) {
    DistinctNames(more) && forall i :: 0 <= i < |more| ==> !HasName(there, more[i].name)
  }

  lemma {:induction false} NameOfAppended(there: seq<Endpoint>, e: Endpoint, name: string)
    ensures HasName(there + [e], name) == (HasName(there, name) || e.name == name)
  {
    var all := there + [e];
    assert all[|there|] == e;
    if HasName(there, name) {
      var k :| 0 <= k < |there| && there[k].name == name;
      assert all[k].name == name;
    }
  }

  lemma {:induction false} JoinsOneByOne(there: seq<Endpoint>, e: Endpoint, more: seq<Endpoint>)
    ensures Joinable(there, [e] + more) == (!HasName(there, e.name) && Joinable(there + [e], more))
  {
    hide HasName;
    var all := [e] + more;
    assert all[0] == e;
    forall i | 0 <= i < |more|
      ensures all[i + 1] == more[i]
      ensures HasName(there + [e], more[i].name) == (HasName(there, more[i].name) || e.name == more[i].name)
    {
      NameOfAppended(there, e, more[i].name);
    }
    if Joinable(there, all) {
      forall i | 0 <= i < |more| ensures !HasName(there + [e], more[i].name) {
        assert all[0].name != all[i + 1].name;
      }
      forall i, j | 0 <= i < j < |more| ensures more[i].name != more[j].name {
        assert all[i + 1].name != all[j + 1].name;
      }
    }
    if !HasName(there, e.name) && Joinable(there + [e], more) {
      forall i | 0 <= i < |all| ensures !HasName(there, all[i].name) {
        if i > 0 { assert all[i] == more[i - 1]; }
      }
      forall i, j | 0 <= i < j < |all| ensures all[i].name != all[j].name {
        assert all[j] == more[j - 1];
        if i > 0 { assert all[i] == more[i - 1]; }
      }
    }
  }

  lemma {:induction false} EvalEndpoints(items: seq<Json>, d: Draft)
    ensures
      var r := EvalItems(ServerSchema(), Endpoints, items, d);
      && r.Some? == ((forall i | i in items :: IsEndpoint(i)) && Joinable(d.candidate.endpoints, EndpointsOf(items)))
      && (r.Some? ==> r.value.candidate == d.candidate.(endpoints := d.candidate.endpoints + EndpointsOf(items)))
    decreases |items|
  {
    hide Eval, IsEndpoint, EndpointOf, Joinable, HasName;
    var there := d.candidate.endpoints;
    if items == [] {
      assert there + [] == there;
      NothingJoins(there);
    } else {
      EvalEndpoint(items[0], d);
      assert items == [items[0]] + items[1..];
      var r := Eval(ServerSchema(), Endpoints, None, items[0], d);
      if forall i | i in items :: IsEndpoint(i) {
        assert IsEndpoint(items[0]);
        JoinsOneByOne(there, EndpointOf(items[0]), EndpointsOf(items[1..]));
      }
      if r.Some? {
        EvalEndpoints(items[1..], r.value);
        if forall i | i in items[1..] :: IsEndpoint(i) {
          assert forall i | i in items :: IsEndpoint(i);
          assert there + [EndpointOf(items[0])] + EndpointsOf(items[1..]) == there + EndpointsOf(items);
        }
      }
    }
  }

  lemma {:induction false} NothingJoins(there: seq<Endpoint>)
    ensures Joinable(there, [])
  {}

  // ---------- The server object ----------

  function ServerFrame(d: Draft): Draft {
    BLANK.(candidate := d.candidate.(endpoints := [], console := true))
  }

  function ServerPart(name: string, d: Draft): Draft {
    if name == "endpoints" then BLANK.(candidate := BLANK.candidate.(endpoints := d.candidate.endpoints))
    else BLANK.(candidate := BLANK.candidate.(console := d.candidate.console))
  }

  predicate ServerAllows(name: string, v: Json, d: Draft) {
    if name == "endpoints" then AreEndpoints(v) && Joinable(d.candidate.endpoints, EndpointsOf(v.items)) else v.Bool?
  }

  function ServerWrite(name: string, v: Json, d: Draft): Draft {
    if name == "endpoints" && AreEndpoints(v) then
      d.(candidate := d.candidate.(endpoints := d.candidate.endpoints + EndpointsOf(v.items)))
    else if name == "console" && v.Bool? then d.(candidate := d.candidate.(console := v.b))
    else d
  }

  const SERVER_CUT := Division(ServerFrame, ServerPart, (n, v, d) => ServerAllows(n, v, d), ServerWrite)

  lemma {:induction false} ServerDividesAt(name: string, v: Json, d: Draft)
    requires name in SERVER_NAMES
    ensures DividesAt(ServerSchema(), Server, SERVER_CUT, name, v, d)
  {
    hide IsEndpoint, EndpointsOf, Joinable, EvalItems;
    if name == "endpoints" {
      if v.Arr? { EvalEndpoints(v.items, d); }
    }
  }

  lemma {:induction false} ServerDivides()
    ensures Divides(ServerSchema(), Server, SERVER_CUT)
  {
    hide DividesAt;
    forall name, v, d | name in SERVER_NAMES ensures DividesAt(ServerSchema(), Server, SERVER_CUT, name, v, d) {
      ServerDividesAt(name, v, d);
    }
  }

  /** A server object that may be read when some endpoints are already there. */
  predicate ServerJoins(v: Json, there: seq<Endpoint>) {
    && v.Obj? && ExactKeys(v.members, SERVER_NAMES) && Find(v.members, "console").Bool?
    && AreEndpoints(Find(v.members, "endpoints"))
    && Joinable(there, EndpointsOf(Find(v.members, "endpoints").items))
  }

  function WithServer(v: Json, c: Configuration): Configuration
    requires ServerJoins(v, c.endpoints)
  {
    c.(endpoints := c.endpoints + EndpointsOf(Find(v.members, "endpoints").items), console := Find(v.members, "console").b)
  }

  lemma {:induction false} EvalServer(v: Json, d: Draft)
    ensures
      var r := Eval(ServerSchema(), Root, Some("server"), v, d);
      && r.Some? == ServerJoins(v, d.candidate.endpoints)
      && (r.Some? ==> r.value.candidate == WithServer(v, d.candidate))
  {
    hide EvalMembers, Joinable, EndpointsOf, IsEndpoint;
    if v.Obj? {
      var s := ServerSchema();
      ServerDivides();
      ObjectInAnyOrder(s, Server, SERVER_CUT, v.members, d);
      var r := EvalMembers(s, Server, v.members, {}, d);
      assert "endpoints" in s.properties(Server) && "console" in s.properties(Server);
      if r.Some? {
        var e, c := Find(v.members, "endpoints"), Find(v.members, "console");
        assert ServerPart("endpoints", r.value) == ServerWrite("endpoints", e, ServerPart("endpoints", d));
        assert ServerPart("console", r.value) == ServerWrite("console", c, ServerPart("console", d));
        assert ServerFrame(r.value) == ServerFrame(d);
      }
    }
  }

  // ---------- The other objects ----------

  function LoggingFrame(d: Draft): Draft { d.(candidate := d.candidate.(level := Info, logConsole := true)) }

  function LoggingPart(name: string, d: Draft): Draft {
    if name == "level" then BLANK.(candidate := BLANK.candidate.(level := d.candidate.level))
    else BLANK.(candidate := BLANK.candidate.(logConsole := d.candidate.logConsole))
  }

  function LoggingAllows(name: string, v: Json, d: Draft): bool { if name == "level" then IsLevel(v) else v.Bool? }

  function LoggingWrite(name: string, v: Json, d: Draft): Draft {
    if name == "level" && v.Str? then d.(candidate := d.candidate.(level := LevelOf(v.s)))
    else if name == "console" && v.Bool? then d.(candidate := d.candidate.(logConsole := v.b))
    else d
  }

  const LOGGING_CUT := Division(LoggingFrame, LoggingPart, LoggingAllows, LoggingWrite)

  lemma {:induction false} LoggingDivides()
    ensures Divides(ServerSchema(), Logging, LOGGING_CUT)
  {
    hide LevelOf;
  }

  function WithLogging(v: Json, c: Configuration): Configuration
    requires IsLogging(v)
  {
    c.(level := LevelOf(Find(v.members, "level").s), logConsole := Find(v.members, "console").b)
  }

  lemma {:induction false} EvalLogging(v: Json, d: Draft)
    ensures
      Eval(ServerSchema(), Root, Some("logging"), v, d)
      == if IsLogging(v) then Some(d.(candidate := WithLogging(v, d.candidate))) else None
  {
    hide EvalMembers, LevelOf;
    if v.Obj? {
      var s := ServerSchema();
      LoggingDivides();
      ObjectInAnyOrder(s, Logging, LOGGING_CUT, v.members, d);
      var r := EvalMembers(s, Logging, v.members, {}, d);
      assert "level" in s.properties(Logging) && "console" in s.properties(Logging);
      if r.Some? {
        var l, c := Find(v.members, "level"), Find(v.members, "console");
        assert LoggingPart("level", r.value) == LoggingWrite("level", l, LoggingPart("level", d));
        assert LoggingPart("console", r.value) == LoggingWrite("console", c, LoggingPart("console", d));
        assert LoggingFrame(r.value) == LoggingFrame(d);
      }
    }
  }

  function WholePart(name: string, d: Draft): Draft { d }
  function NoFrame(d: Draft): Draft { BLANK }

  function MetricsAllows(name: string, v: Json, d: Draft): bool { v.Bool? }

  function MetricsWrite(name: string, v: Json, d: Draft): Draft {
    if v.Bool? then d.(candidate := d.candidate.(metrics := v.b)) else d
  }

  lemma {:induction false} EvalTelemetry(v: Json, d: Draft)
    ensures
      Eval(ServerSchema(), Root, Some("telemetry"), v, d)
      == if IsTelemetry(v) then Some(d.(candidate := d.candidate.(metrics := Find(v.members, "metrics").b))) else None
  {
    hide EvalMembers;
    if v.Obj? {
      var s := ServerSchema();
      var cut := Division(NoFrame, WholePart, MetricsAllows, MetricsWrite);
      assert Divides(s, Telemetry, cut);
      ObjectInAnyOrder(s, Telemetry, cut, v.members, d);
      var r := EvalMembers(s, Telemetry, v.members, {}, d);
      assert "metrics" in s.properties(Telemetry);
      if r.Some? {
        assert WholePart("metrics", r.value) == MetricsWrite("metrics", Find(v.members, "metrics"), WholePart("metrics", d));
      }
    }
  }

  function PathAllows(name: string, v: Json, d: Draft): bool { IsText(v) }

  function PathWrite(name: string, v: Json, d: Draft): Draft {
    if v.Str? then d.(candidate := d.candidate.(project := v.s)) else d
  }

  lemma {:induction false} EvalProjectReference(v: Json, d: Draft)
    ensures
      Eval(ServerSchema(), Root, Some("project"), v, d)
      == if IsProjectReference(v) then Some(d.(candidate := d.candidate.(project := Find(v.members, "path").s))) else None
  {
    hide EvalMembers;
    if v.Obj? {
      var s := ServerSchema();
      var cut := Division(NoFrame, WholePart, PathAllows, PathWrite);
      assert Divides(s, Project, cut);
      ObjectInAnyOrder(s, Project, cut, v.members, d);
      var r := EvalMembers(s, Project, v.members, {}, d);
      assert "path" in s.properties(Project);
      if r.Some? {
        assert WholePart("path", r.value) == PathWrite("path", Find(v.members, "path"), WholePart("path", d));
      }
    }
  }

  // ---------- The root object ----------

  function RootPart(name: string, d: Draft): Draft {
    var c, b := d.candidate, BLANK.candidate;
    if name == "version" then BLANK.(candidate := b.(version := c.version))
    else if name == "server" then BLANK.(candidate := b.(endpoints := c.endpoints, console := c.console))
    else if name == "logging" then BLANK.(candidate := b.(level := c.level, logConsole := c.logConsole))
    else if name == "telemetry" then BLANK.(candidate := b.(metrics := c.metrics))
    else BLANK.(candidate := b.(project := c.project))
  }

  predicate RootAllows(name: string, v: Json, d: Draft) {
    if name == "version" then IsU32(v)
    else if name == "server" then ServerJoins(v, d.candidate.endpoints)
    else if name == "logging" then IsLogging(v)
    else if name == "telemetry" then IsTelemetry(v)
    else IsProjectReference(v)
  }

  function RootWrite(name: string, v: Json, d: Draft): Draft {
    if !RootAllows(name, v, d) then d
    else if name == "version" then d.(candidate := d.candidate.(version := v.n))
    else if name == "server" then d.(candidate := WithServer(v, d.candidate))
    else if name == "logging" then d.(candidate := WithLogging(v, d.candidate))
    else if name == "telemetry" then d.(candidate := d.candidate.(metrics := Find(v.members, "metrics").b))
    else d.(candidate := d.candidate.(project := Find(v.members, "path").s))
  }

  const ROOT_CUT := Division(NoFrame, RootPart, (n, v, d) => RootAllows(n, v, d), RootWrite)

  lemma {:induction false} EvalVersion(v: Json, d: Draft)
    ensures
      Eval(ServerSchema(), Root, Some("version"), v, d)
      == if IsU32(v) then Some(d.(candidate := d.candidate.(version := v.n))) else None
  {}

  lemma {:induction false} RootDividesAt(name: string, v: Json, d: Draft)
    requires name in ROOT_NAMES
    ensures DividesAt(ServerSchema(), Root, ROOT_CUT, name, v, d)
  {
    hide DividesAt;
    if name == "version" {
      VersionPartDivides(v, d);
    } else if name == "server" {
      ServerPartDivides(v, d);
    } else if name == "logging" {
      LoggingPartDivides(v, d);
    } else if name == "telemetry" {
      TelemetryPartDivides(v, d);
    } else {
      ProjectPartDivides(v, d);
    }
  }

  lemma {:induction false} VersionPartDivides(v: Json, d: Draft)
    ensures DividesAt(ServerSchema(), Root, ROOT_CUT, "version", v, d)
  {
    hide Eval, ServerJoins, IsLogging, IsTelemetry, IsProjectReference;
    EvalVersion(v, d);
  }

  lemma {:induction false} TelemetryPartDivides(v: Json, d: Draft)
    ensures DividesAt(ServerSchema(), Root, ROOT_CUT, "telemetry", v, d)
  {
    hide Eval, ServerJoins, IsLogging, IsProjectReference;
    EvalTelemetry(v, d);
  }

  lemma {:induction false} ProjectPartDivides(v: Json, d: Draft)
    ensures DividesAt(ServerSchema(), Root, ROOT_CUT, "project", v, d)
  {
    hide Eval, ServerJoins, IsLogging, IsTelemetry;
    EvalProjectReference(v, d);
  }

  lemma {:induction false} ServerPartDivides(v: Json, d: Draft)
    ensures DividesAt(ServerSchema(), Root, ROOT_CUT, "server", v, d)
  {
    hide Eval, Joinable, EndpointsOf, IsEndpoint, IsLogging, IsTelemetry, IsProjectReference;
    EvalServer(v, d);
  }

  lemma {:induction false} LoggingPartDivides(v: Json, d: Draft)
    ensures DividesAt(ServerSchema(), Root, ROOT_CUT, "logging", v, d)
  {
    hide Eval, ServerJoins, IsLogging, IsTelemetry, IsProjectReference, LevelOf;
    EvalLogging(v, d);
  }

  lemma {:induction false} RootDivides()
    ensures Divides(ServerSchema(), Root, ROOT_CUT)
  {
    hide DividesAt;
    forall name, v, d | name in ROOT_NAMES ensures DividesAt(ServerSchema(), Root, ROOT_CUT, name, v, d) {
      RootDividesAt(name, v, d);
    }
  }

  lemma {:induction false} JoinsNothing(more: seq<Endpoint>)
    ensures Joinable([], more) == DistinctNames(more)
  {}

  lemma {:induction false} ServerAlone(v: Json)
    ensures ServerJoins(v, []) == IsServer(v)
  {
    hide EndpointsOf, Joinable, DistinctNames, IsEndpoint;
    if v.Obj? && ExactKeys(v.members, SERVER_NAMES) && AreEndpoints(Find(v.members, "endpoints")) {
      JoinsNothing(EndpointsOf(Find(v.members, "endpoints").items));
    }
  }

  lemma {:induction false} RootAllowed(v: Json)
    requires v.Obj? && ExactKeys(v.members, ROOT_NAMES)
    ensures
      IsConfiguration(v)
      == forall name | name in ROOT_NAMES :: RootAllows(name, Find(v.members, name), RootPart(name, BLANK))
  {
    hide IsServer, ServerJoins, IsLogging, IsTelemetry, IsProjectReference, Find;
    ServerAlone(Find(v.members, "server"));
    assert "version" in ROOT_NAMES && "server" in ROOT_NAMES && "logging" in ROOT_NAMES;
    assert "telemetry" in ROOT_NAMES && "project" in ROOT_NAMES;
  }

  lemma {:induction false} RootParts(v: Json, d: Draft)
    requires IsConfiguration(v)
    requires forall name | name in ROOT_NAMES ::
      RootPart(name, d) == RootWrite(name, Find(v.members, name), RootPart(name, BLANK))
    ensures d.candidate == Decode(v)
  {
    hide IsServer, IsLogging, RootPart, RootWrite, EndpointsOf, LevelOf, Find;
    var m := v.members;
    ServerPartOf(Find(m, "server"), d);
    LoggingPartOf(Find(m, "logging"), d);
    SimplePartsOf(v, d);
  }

  lemma {:induction false} ServerPartOf(v: Json, d: Draft)
    requires IsServer(v) && RootPart("server", d) == RootWrite("server", v, RootPart("server", BLANK))
    ensures d.candidate.endpoints == EndpointsOf(Find(v.members, "endpoints").items)
    ensures d.candidate.console == Find(v.members, "console").b
  {
    hide EndpointsOf, Joinable, DistinctNames, IsEndpoint;
    ServerAlone(v);
    var endpoints := EndpointsOf(Find(v.members, "endpoints").items);
    assert [] + endpoints == endpoints;
  }

  lemma {:induction false} LoggingPartOf(v: Json, d: Draft)
    requires IsLogging(v) && RootPart("logging", d) == RootWrite("logging", v, RootPart("logging", BLANK))
    ensures d.candidate.level == LEVELS[Find(v.members, "level").s]
    ensures d.candidate.logConsole == Find(v.members, "console").b
  {
    hide LevelOf;
    LevelsAgree(Find(v.members, "level").s);
  }

  lemma {:induction false} SimplePartsOf(v: Json, d: Draft)
    requires IsConfiguration(v)
    requires forall name | name in ROOT_NAMES ::
      RootPart(name, d) == RootWrite(name, Find(v.members, name), RootPart(name, BLANK))
    ensures d.candidate.version == Find(v.members, "version").n
    ensures d.candidate.metrics == Find(Find(v.members, "telemetry").members, "metrics").b
    ensures d.candidate.project == Find(Find(v.members, "project").members, "path").s
  {
    hide IsServer, IsLogging, ServerJoins, Find;
    var m := v.members;
    assert RootPart("version", d) == RootWrite("version", Find(m, "version"), RootPart("version", BLANK));
    assert RootPart("telemetry", d) == RootWrite("telemetry", Find(m, "telemetry"), RootPart("telemetry", BLANK));
    assert RootPart("project", d) == RootWrite("project", Find(m, "project"), RootPart("project", BLANK));
  }

  /** Reading a value with the schema succeeds exactly when it is a server configuration, whose
      endpoint names are pairwise distinct, and yields its decoding. */
  lemma {:induction false} ReadingIsDecoding(v: Json)
    ensures
      var r := EvalRoot(ServerSchema(), v, BLANK);
      && r.Some? == IsConfiguration(v)
      && (r.Some? ==> r.value.candidate == Decode(v))
  {
    hide EvalMembers, RootAllows, RootPart, RootWrite, NoFrame, IsServer, IsLogging, IsTelemetry, IsProjectReference;
    hide Decode;
    if v.Obj? {
      var s := ServerSchema();
      RootDivides();
      ObjectInAnyOrder(s, Root, ROOT_CUT, v.members, BLANK);
      var r := EvalMembers(s, Root, v.members, {}, BLANK);
      if ExactKeys(v.members, ROOT_NAMES) { RootAllowed(v); }
      if r.Some? { RootParts(v, r.value); }
    }
  }

  // ---------- The handler ----------

  lemma {:induction false} BeginStep(st: State<Context, Draft>)
    ensures
      Step(ServerSchema(), st, ObjectBegin)
      == if st.failure.Some? then st
         else if st.stack == [] then Push(st.(rootObject := true), Root)
         else
           var next := ObjectAt(Top(st), st.pending);
           if next.None? then ConfigurationSchema.Fail(st, WrongFieldType)
           else
             var entered := Push(st.(pending := None), next.value);
             if next.value == EndpointObject then
               entered.(data := BeginEndpoint(EndpointObject, entered.data), seen := entered.seen[EndpointObject := {}])
             else entered
  {}

  lemma {:induction false} LeafStep(st: State<Context, Draft>, v: Json)
    ensures
      Step(ServerSchema(), st, Scalar(v))
      == if st.failure.Some? then st
         else if st.stack == [] then ConfigurationSchema.Fail(st, WrongRootType)
         else
           match ReadLeaf(Top(st), st.pending, v, st.data)
           case Refused(f) => ConfigurationSchema.Fail(st, f)
           case Accepted(data) => st.(pending := None, data := data)
  {}

  class Handler {
    var candidate: Configuration
    var endpoint: Endpoint
    var stack: seq<Context>
    var pending: Option<string>
    var failure: Option<Failure>
    /** The seen-mask of each context; an absent one is empty. */
    var seen: map<Context, set<string>>
    var rootObject: bool

    constructor ()
      ensures Machine().data == BLANK && IsInitial(Machine())
    {
      candidate, endpoint := BLANK.candidate, BLANK.endpoint;
      stack, pending, failure, rootObject := [], None, None, false;
      seen := map[];
    }

    /** The handler's fields as a state of the schema's machine. */
    function Machine(): State<Context, Draft>
      reads this
    {
      State(stack, pending, failure, seen, rootObject, Draft(candidate, endpoint))
    }

    function SeenMask(c: Context): set<string>
      reads this
    {
      if c in seen then seen[c] else {}
    }

    function Current(): Context
      reads this
      requires stack != []
    {
      stack[|stack| - 1]
    }

    method Fail(code: Failure)
      requires failure == None
      modifies `failure
      ensures failure == Some(code)
    {
      failure := Some(code);
    }

    method Push(c: Context)
      requires failure == None
      modifies `stack, `failure
      ensures Machine() == ConfigurationSchema.Push(old(Machine()), c)
    {
      if |stack| == STACK_SIZE {
        Fail(NestingTooDeep);
        return;
      }
      stack := stack + [c];
    }

    method ObjectBegin()
      modifies this
      ensures Machine() == Step(ServerSchema(), old(Machine()), Event.ObjectBegin)
    {
      BeginStep(Machine());
      hide Step, ServerSchema;
      if failure.Some? { return; }
      if stack == [] {
        rootObject := true;
        Push(Root);
        return;
      }
      var next := None;
      if Current() == Root {
        if pending == Some("server") {
          next := Some(Server);
        } else if pending == Some("logging") {
          next := Some(Logging);
        } else if pending == Some("telemetry") {
          next := Some(Telemetry);
        } else if pending == Some("project") {
          next := Some(Project);
        }
      } else if Current() == Endpoints {
        next := Some(EndpointObject);
      }
      if next.None? {
        Fail(WrongFieldType);
        return;
      }
      pending := None;
      Push(next.value);
      if next.value == EndpointObject {
        endpoint, seen := NO_ENDPOINT, seen[EndpointObject := {}];
      }
    }

    method Require(actual: set<string>, member: string)
      modifies `failure
      ensures failure == if old(failure) == None && member !in actual then Some(MissingRequiredField) else old(failure)
    {
      if member !in actual && failure == None { Fail(MissingRequiredField); }
    }

    /** The required properties of the object that ends, in the source's order. */
    method ValidateRequired(ending: Context)
      requires failure == None
      modifies `failure
      ensures
        failure == if Properties(ending) <= Seen(old(Machine()), ending) then None else Some(MissingRequiredField)
    {
      match ending
      case Root =>
        Require(SeenMask(Root), "version");
        Require(SeenMask(Root), "server");
        Require(SeenMask(Root), "logging");
        Require(SeenMask(Root), "telemetry");
        Require(SeenMask(Root), "project");
      case Server =>
        Require(SeenMask(Server), "endpoints");
        Require(SeenMask(Server), "console");
      case EndpointObject =>
        Require(SeenMask(EndpointObject), "name");
        Require(SeenMask(EndpointObject), "transport");
        Require(SeenMask(EndpointObject), "protocol");
        Require(SeenMask(EndpointObject), "address");
        Require(SeenMask(EndpointObject), "port");
      case Logging =>
        Require(SeenMask(Logging), "level");
        Require(SeenMask(Logging), "console");
      case Telemetry =>
        Require(SeenMask(Telemetry), "metrics");
      case Project =>
        Require(SeenMask(Project), "path");
      case Endpoints =>
    }

    /** The endpoint joins the list unless its name is taken. */
    method CompleteEndpoint()
      requires failure == None
      modifies `candidate, `failure
      ensures
        match FinishEndpoint(EndpointObject, old(Draft(candidate, endpoint)))
        case Refused(f) => failure == Some(f) && candidate == old(candidate)
        case Accepted(d) => failure == None && Draft(candidate, endpoint) == d
    {
      var i := 0;
      while i < |candidate.endpoints|
        invariant 0 <= i <= |candidate.endpoints|
        invariant forall k :: 0 <= k < i ==> candidate.endpoints[k].name != endpoint.name
      {
        if candidate.endpoints[i].name == endpoint.name {
          Fail(DuplicateEndpointName);
          return;
        }
        i := i + 1;
      }
      candidate := candidate.(endpoints := candidate.endpoints + [endpoint]);
    }

    method ObjectEnd()
      modifies this
      ensures Machine() == Step(ServerSchema(), old(Machine()), Event.ObjectEnd)
    {
      hide HasName;
      if failure.Some? { return; }
      if stack == [] {
        Fail(WrongFieldType);
        return;
      }
      var ending := Current();
      ValidateRequired(ending);
      if failure.Some? { return; }
      if ending == EndpointObject { CompleteEndpoint(); }
      if failure.None? { stack := stack[..|stack| - 1]; }
    }

    method ArrayBegin()
      modifies this
      ensures Machine() == Step(ServerSchema(), old(Machine()), Event.ArrayBegin)
    {
      if failure.Some? { return; }
      if stack == [] {
        Fail(WrongRootType);
        return;
      }
      if Current() != Server || pending != Some("endpoints") {
        Fail(WrongFieldType);
        return;
      }
      pending := None;
      Push(Endpoints);
    }

    method ArrayEnd()
      modifies this
      ensures Machine() == Step(ServerSchema(), old(Machine()), Event.ArrayEnd)
    {
      if failure.Some? { return; }
      if stack == [] || Current() != Endpoints {
        Fail(WrongFieldType);
        return;
      }
      stack := stack[..|stack| - 1];
    }

    method Key(name: string)
      modifies this
      ensures Machine() == Step(ServerSchema(), old(Machine()), Event.Key(name))
    {
      if failure.Some? { return; }
      if stack == [] {
        Fail(WrongFieldType);
        return;
      }
      pending := Some(name);
      if name !in Properties(Current()) {
        Fail(UnknownProperty);
        return;
      }
      if name in SeenMask(Current()) {
        Fail(DuplicateProperty);
        return;
      }
      seen := seen[Current() := SeenMask(Current()) + {name}];
    }

    method ParseLevel(value: string) returns (ok: bool, level: Level)
      ensures ok == IsLevel(Str(value)) && (ok ==> level == LevelOf(value))
    {
      ok, level := true, Info;
      if value == "trace" {
        level := Trace;
      } else if value == "debug" {
        level := Debug;
      } else if value == "info" {
        level := Info;
      } else if value == "warning" {
        level := Warning;
      } else if value == "error" {
        level := ErrorLevel;
      } else if value == "critical" {
        level := Critical;
      } else {
        ok := false;
      }
    }

    method String(value: string)
      modifies this
      ensures Machine() == Step(ServerSchema(), old(Machine()), Event.Scalar(Str(value)))
    {
      LeafStep(Machine(), Str(value));
      hide Step, ServerSchema, IsLevel, LevelOf;
      if failure.Some? { return; }
      if stack == [] {
        Fail(WrongRootType);
        return;
      }
      if Current() == EndpointObject {
        if pending == Some("name") {
          if value == "" { Fail(InvalidEndpoint); } else { endpoint := endpoint.(name := value); }
        } else if pending == Some("transport") {
          if value != "tcp" { Fail(InvalidEndpoint); }
        } else if pending == Some("protocol") {
          if value != "json" { Fail(InvalidEndpoint); }
        } else if pending == Some("address") {
          if value == "" { Fail(InvalidEndpoint); } else { endpoint := endpoint.(address := value); }
        } else {
          Fail(WrongFieldType);
        }
      } else if Current() == Logging && pending == Some("level") {
        var ok, level := ParseLevel(value);
        if ok { candidate := candidate.(level := level); } else { Fail(InvalidLogLevel); }
      } else if Current() == Project && pending == Some("path") {
        if value == "" { Fail(InvalidProjectPath); } else { candidate := candidate.(project := value); }
      } else {
        Fail(WrongFieldType);
      }
      if failure.None? { pending := None; }
    }

    method Integer(value: int)
      modifies this
      ensures Machine() == Step(ServerSchema(), old(Machine()), Event.Scalar(Int(value)))
    {
      LeafStep(Machine(), Int(value));
      hide Step, ServerSchema;
      if failure.Some? { return; }
      if stack == [] {
        Fail(WrongRootType);
        return;
      }
      if Current() == Root && pending == Some("version") {
        if value < 0 || value > MAX_U32 {
          Fail(WrongFieldType);
        } else {
          candidate := candidate.(version := value);
        }
      } else if Current() == EndpointObject && pending == Some("port") {
        if value < 1 || value > 65535 {
          Fail(InvalidEndpoint);
        } else {
          endpoint := endpoint.(port := value);
        }
      } else {
        Fail(WrongFieldType);
      }
      if failure.None? { pending := None; }
    }

    method Boolean(value: bool)
      modifies this
      ensures Machine() == Step(ServerSchema(), old(Machine()), Event.Scalar(Bool(value)))
    {
      LeafStep(Machine(), Bool(value));
      hide Step, ServerSchema;
      if failure.Some? { return; }
      if stack == [] {
        Fail(WrongRootType);
        return;
      }
      if Current() == Server && pending == Some("console") {
        candidate := candidate.(console := value);
      } else if Current() == Logging && pending == Some("console") {
        candidate := candidate.(logConsole := value);
      } else if Current() == Telemetry && pending == Some("metrics") {
        candidate := candidate.(metrics := value);
      } else {
        Fail(WrongFieldType);
      }
      if failure.None? { pending := None; }
    }

    method RejectScalar(ghost v: Json)
      requires !v.Str? && !v.Int? && !v.Bool?
      modifies this
      ensures Machine() == Step(ServerSchema(), old(Machine()), Event.Scalar(v))
    {
      LeafStep(Machine(), v);
      if failure.Some? { return; }
      if stack == [] { Fail(WrongRootType); } else { Fail(WrongFieldType); }
    }

    method Handle(e: Event)
      modifies this
      ensures Machine() == Step(ServerSchema(), old(Machine()), e)
    {
      hide Step, ServerSchema;
      match e
      case ObjectBegin => ObjectBegin();
      case ObjectEnd => ObjectEnd();
      case ArrayBegin => ArrayBegin();
      case ArrayEnd => ArrayEnd();
      case Key(name) => Key(name);
      case Scalar(v) =>
        if v.Str? {
          String(v.s);
        } else if v.Int? {
          Integer(v.n);
        } else if v.Bool? {
          Boolean(v.b);
        } else {
          RejectScalar(v);
        }
    }

    method HandleAll(events: seq<Event>)
      modifies this
      ensures Machine() == Fold(ServerSchema(), old(Machine()), events)
    {
      hide Step, ServerSchema;
      var i := 0;
      while i < |events|
        invariant 0 <= i <= |events|
        invariant Fold(ServerSchema(), Machine(), events[i..]) == Fold(ServerSchema(), old(Machine()), events)
      {
        assert events[i..][1..] == events[i + 1..];
        Handle(events[i]);
        i := i + 1;
      }
    }

    predicate Valid()
      reads this
    {
      rootObject && stack == [] && failure == None
    }
  }

  // ---------- Loading ----------

  /** The configuration a text denotes, if it denotes one of the current version, with the project
      path as it stands in the text. */
  ghost function Meaning(conv: Conversion, text: string): Option<Configuration> {
    var r := JsonReader.ReadText(conv, text);
    if r.Bad? || !ValidDocument(conv, r.value) then None
    else
      var v := ValueOf(conv, r.value);
      if IsConfiguration(v) && Decode(v).version == 1 then Some(Decode(v)) else None
  }

  /** Loading succeeds exactly on texts that denote a server configuration of the current version
      whose project path can be resolved (`resolve`), and changes the output only then. */
  method Load(conv: Conversion, resolve: string -> Option<string>, text: string, current: Configuration)
    returns (status: Status, output: Configuration)
    ensures
      status ==
      match Meaning(conv, text)
      case None => ConfigurationFailed
      case Some(c) => if resolve(c.project).Some? then Ok else InitializationFailed
    ensures
      output ==
      if status == Ok then
        Meaning(conv, text).value.(project := resolve(Meaning(conv, text).value.project).value)
      else current
  {
    hide IsConfiguration, Decode, Fold, EvalRoot, ServerSchema;
    output := current;
    var handler := new Handler();
    var parser := new JsonParser.Parser(conv, text);
    parser.Run();
    handler.HandleAll(parser.events);
    if parser.failure.Some? { return ConfigurationFailed, current; }
    ghost var v := ValueOf(conv, JsonReader.ReadText(conv, text).value);
    LoadingIsReading(v, handler.Machine());
    if !handler.Valid() { return ConfigurationFailed, current; }
    if handler.candidate.version != CURRENT_VERSION { return ConfigurationFailed, current; }
    var path := resolve(handler.candidate.project);
    if path.None? { return InitializationFailed, current; }
    return Ok, handler.candidate.(project := path.value);
  }

  lemma {:induction false} LoadingIsReading(v: Json, end: State<Context, Draft>)
    requires exists st :: IsInitial(st) && st.data == BLANK && end == Fold(ServerSchema(), st, Events(v))
    ensures Complete(end) == IsConfiguration(v)
    ensures Complete(end) ==> end.data.candidate == Decode(v)
  {
    hide IsConfiguration, Decode, Fold, EvalRoot, ServerSchema;
    var st :| IsInitial(st) && st.data == BLANK && end == Fold(ServerSchema(), st, Events(v));
    ServerSchemaIsWellFormed();
    MachineRefinesReading(ServerSchema(), Rank, Owner, v, st);
    ReadingIsDecoding(v);
  }

  /** Whatever events arrive, the handler's stack is a path of its schema and cannot overflow. */
  lemma {:induction false} HandlerStackIsPath(st: State<Context, Draft>, events: seq<Event>)
    requires IsInitial(st)
    ensures
      var end := Fold(ServerSchema(), st, events);
      IsPath(ServerSchema(), end.stack) && end.failure != Some(NestingTooDeep)
  {
    hide Fold;
    ServerSchemaIsWellFormed();
    ServerNeverRefusesDepth();
    StackIsPath(ServerSchema(), Rank, Owner, st, events);
  }
}
