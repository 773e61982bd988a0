/** The JSON forms of an app's specification: defaults on reading, what is left out on writing
(packages/api/v1alpha1/app.go, and DecodeAppSpec of strict.go). */
module AppSpec {
  import opened Wrappers
  import opened Values
  import opened Decimal
  import opened Codec
  import opened Strict

  const DEFAULT_VOLUME_SIZE := "1Gi"
  const DEFAULT_BRANCH := "main"
  const DEFAULT_PROCESS_SIZE := "small"
  const DEFAULT_IDLE_AFTER := "15m"
  const DEFAULT_TLS := "auto"

  const PROTOCOLS := ["http", "tcp"]
  const BUILD_STRATEGIES := ["auto", "dockerfile", "railpack"]
  const IDLE_MODES := ["off", "zero", "throttle"]

  datatype KeyRef = KeyRef(name: string, key: string)
  datatype EnvVar = EnvVar(name: string, value: Option<string>, fromSecret: Option<KeyRef>, fromService: Option<KeyRef>)
  datatype Domain = Domain(host: string, tls: string)
  datatype Volume = Volume(name: string, mountPath: string, size: string, storageClass: Option<string>)
  datatype Build = Build(strategy: string, dockerfile: Option<string>)
  datatype GitSource = GitSource(repo: string, branch: string, path: string, build: Build)
  datatype Source = Source(image: Option<string>, git: Option<GitSource>)
  datatype Replicas = Replicas(min: u32, max: u32)
  datatype Idle = Idle(mode: string, after: string)
  datatype Process = Process(command: Option<seq<string>>, port: Option<u16>, size: string, replicas: Replicas,
                             idle: Option<Idle>, schedule: Option<string>, timeZone: Option<string>, protocol: string)
  datatype HealthCheck = HealthCheck(path: string, port: Option<u16>)
  datatype Runtime = Runtime(processes: Option<map<string, Process>>, healthCheck: Option<HealthCheck>, fsGroup: Option<i64>)
  datatype AppSpec = AppSpec(source: Source, runtime: Runtime, env: Option<seq<EnvVar>>, domains: Option<seq<Domain>>,
                             volumes: Option<seq<Volume>>, imagePullSecrets: Option<seq<string>>)

  // Go's zero values, for the structs that are read without defaults of their own.
  const NO_KEY_REF := KeyRef("", "")
  const NO_ENV_VAR := EnvVar("", None, None, None)
  const NO_SOURCE := Source(None, None)
  const NO_HEALTH_CHECK := HealthCheck("", None)
  const NO_RUNTIME := Runtime(None, None, None)
  const NO_APP_SPEC := AppSpec(NO_SOURCE, NO_RUNTIME, None, None, None, None)
  const NO_REPLICAS := Replicas(0, 0)
  const NO_BUILD := Build("", None)
  const NO_GIT_SOURCE := GitSource("", "", "", NO_BUILD)
  const NO_IDLE := Idle("", "")
  const NO_PROCESS := Process(None, None, "", NO_REPLICAS, None, None, None, "")
  const NO_DOMAIN := Domain("", "")
  const NO_VOLUME := Volume("", "", "", None)

  // ---------- Reading ----------

  /** A struct is read from an object; a null leaves it as it is. */
  function ReadKeyRef(was: KeyRef, v: Value): Option<KeyRef> {
    if v.Null? then Some(was) else if !v.Obj? then None
    else
      var name :- Field(v.members, "name", was.name, ReadStr);
      var key :- Field(v.members, "key", was.key, ReadStr);
      Some(KeyRef(name, key))
  }

  function ReadEnvVar(was: EnvVar, v: Value): Option<EnvVar> {
    if v.Null? then Some(was) else if !v.Obj? then None
    else
      var name :- Field(v.members, "name", was.name, ReadStr);
      var value :- Pointer(v.members, "value", "", ReadStr);
      var fromSecret :- Pointer(v.members, "fromSecret", NO_KEY_REF, ReadKeyRef);
      var fromService :- Pointer(v.members, "fromService", NO_KEY_REF, ReadKeyRef);
      Some(EnvVar(name, value, fromSecret, fromService))
  }

  /** A struct with an UnmarshalJSON starts from its defaults, whatever it was. */
  function ReadDomain(was: Domain, v: Value): Option<Domain> {
    var start := Domain("", DEFAULT_TLS);
    if v.Null? then Some(start) else if !v.Obj? then None
    else
      var host :- Field(v.members, "host", start.host, ReadStr);
      var tls :- Field(v.members, "tls", start.tls, ReadStr);
      Some(Domain(host, tls))
  }

  function ReadVolume(was: Volume, v: Value): Option<Volume> {
    var start := Volume("", "", DEFAULT_VOLUME_SIZE, None);
    if v.Null? then Some(start) else if !v.Obj? then None
    else
      var name :- Field(v.members, "name", start.name, ReadStr);
      var mountPath :- Field(v.members, "mountPath", start.mountPath, ReadStr);
      var size :- Field(v.members, "size", start.size, ReadStr);
      var storageClass :- Pointer(v.members, "storageClass", "", ReadStr);
      Some(Volume(name, mountPath, size, storageClass))
  }

  function ReadStrategy(was: string, v: Value): Option<string> {
    ReadEnum(v, BUILD_STRATEGIES)
  }

  function ReadBuild(was: Build, v: Value): Option<Build> {
    var start := Build("auto", None);
    if v.Null? then Some(start) else if !v.Obj? then None
    else
      var strategy :- Field(v.members, "strategy", start.strategy, ReadStrategy);
      var dockerfile :- Pointer(v.members, "dockerfile", "", ReadStr);
      Some(Build(strategy, dockerfile))
  }

  function ReadGitSource(was: GitSource, v: Value): Option<GitSource> {
    var start := GitSource("", DEFAULT_BRANCH, "", Build("auto", None));
    if v.Null? then Some(start) else if !v.Obj? then None
    else
      var repo :- Field(v.members, "repo", start.repo, ReadStr);
      var branch :- Field(v.members, "branch", start.branch, ReadStr);
      var path :- Field(v.members, "path", start.path, ReadStr);
      var build :- Field(v.members, "build", start.build, ReadBuild);
      Some(GitSource(repo, branch, path, build))
  }

  function ReadSource(was: Source, v: Value): Option<Source> {
    if v.Null? then Some(was) else if !v.Obj? then None
    else
      var image :- Pointer(v.members, "image", "", ReadStr);
      var git :- Pointer(v.members, "git", NO_GIT_SOURCE, ReadGitSource);
      Some(Source(image, git))
  }

  function ReadReplicas(was: Replicas, v: Value): Option<Replicas> {
    var start := Replicas(1, 1);
    if v.Null? then Some(start) else if !v.Obj? then None
    else
      var min :- Field(v.members, "min", start.min, ReadU32);
      var max :- Field(v.members, "max", start.max, ReadU32);
      Some(Replicas(min, max))
  }

  function ReadMode(was: string, v: Value): Option<string> {
    ReadEnum(v, IDLE_MODES)
  }

  function ReadIdle(was: Idle, v: Value): Option<Idle> {
    var start := Idle("off", DEFAULT_IDLE_AFTER);
    if v.Null? then Some(start) else if !v.Obj? then None
    else
      var mode :- Field(v.members, "mode", start.mode, ReadMode);
      var after :- Field(v.members, "after", start.after, ReadStr);
      Some(Idle(mode, after))
  }

  function ReadProtocol(was: string, v: Value): Option<string> {
    ReadEnum(v, PROTOCOLS)
  }

  function ReadProcess(was: Process, v: Value): Option<Process> {
    var start := Process(None, None, DEFAULT_PROCESS_SIZE, Replicas(1, 1), None, None, None, "http");
    if v.Null? then Some(start) else if !v.Obj? then None
    else
      var command :- Slice(v.members, "command", "", ReadStr);
      var port :- Pointer(v.members, "port", 0, ReadU16);
      var size :- Field(v.members, "size", start.size, ReadStr);
      var replicas :- Field(v.members, "replicas", start.replicas, ReadReplicas);
      var idle :- Pointer(v.members, "idle", NO_IDLE, ReadIdle);
      var schedule :- Pointer(v.members, "schedule", "", ReadStr);
      var timeZone :- Pointer(v.members, "timeZone", "", ReadStr);
      var protocol :- Field(v.members, "protocol", start.protocol, ReadProtocol);
      Some(Process(command, port, size, replicas, idle, schedule, timeZone, protocol))
  }

  function ReadHealthCheck(was: HealthCheck, v: Value): Option<HealthCheck> {
    if v.Null? then Some(was) else if !v.Obj? then None
    else
      var path :- Field(v.members, "path", was.path, ReadStr);
      var port :- Pointer(v.members, "port", 0, ReadU16);
      Some(HealthCheck(path, port))
  }

  function ReadRuntime(was: Runtime, v: Value): Option<Runtime> {
    if v.Null? then Some(was) else if !v.Obj? then None
    else
      var processes :- Table(v.members, "processes", NO_PROCESS, ReadProcess);
      var healthCheck :- Pointer(v.members, "healthCheck", NO_HEALTH_CHECK, ReadHealthCheck);
      var fsGroup :- Pointer(v.members, "fsGroup", 0, ReadI64);
      Some(Runtime(processes, healthCheck, fsGroup))
  }

  function ReadAppSpec(was: AppSpec, v: Value): Option<AppSpec> {
    if v.Null? then Some(was) else if !v.Obj? then None
    else
      var source :- Field(v.members, "source", was.source, ReadSource);
      var runtime :- Field(v.members, "runtime", was.runtime, ReadRuntime);
      var env :- Slice(v.members, "env", NO_ENV_VAR, ReadEnvVar);
      var domains :- Slice(v.members, "domains", NO_DOMAIN, ReadDomain);
      var volumes :- Slice(v.members, "volumes", NO_VOLUME, ReadVolume);
      var imagePullSecrets :- Slice(v.members, "imagePullSecrets", "", ReadStr);
      Some(AppSpec(source, runtime, env, domains, volumes, imagePullSecrets))
  }

  datatype DecodeError = MissingField(name: string) | Refused

  /** DecodeAppSpec, on the decoded JSON value. */
  function DecodeAppSpec(v: Value): Result<AppSpec, DecodeError> {
    match Check(AppSpecShape, v)
    case Some(m) => Err(MissingField(m))
    case None =>
      match ReadAppSpec(NO_APP_SPEC, v)
      case None => Err(Refused)
      case Some(spec) => Ok(spec)
  }

  // ---------- Writing ----------

  function WriteKeyRef(k: KeyRef): Option<Value> {
    Some(Obj(MembersOf([Always("name", Str(k.name)), Always("key", Str(k.key))])))
  }

  function WriteEnvVar(e: EnvVar): Option<Value> {
    var value :- OmitNil("value", e.value, WriteStr);
    var fromSecret :- OmitNil("fromSecret", e.fromSecret, WriteKeyRef);
    var fromService :- OmitNil("fromService", e.fromService, WriteKeyRef);
    Some(Obj(MembersOf([Always("name", Str(e.name)), value, fromSecret, fromService])))
  }

  function WriteDomain(d: Domain): Option<Value> {
    Some(Obj(MembersOf([Always("host", Str(d.host)), Always("tls", Str(d.tls))])))
  }

  function WriteVolume(v: Volume): Option<Value> {
    var storageClass :- OmitNil("storageClass", v.storageClass, WriteStr);
    Some(Obj(MembersOf([Always("name", Str(v.name)), Always("mountPath", Str(v.mountPath)), Always("size", Str(v.size)),
                        storageClass])))
  }

  function WriteBuild(b: Build): Option<Value> {
    var strategy :- WriteEnum(b.strategy, "auto", BUILD_STRATEGIES);
    var dockerfile :- OmitNil("dockerfile", b.dockerfile, WriteStr);
    Some(Obj(MembersOf([Always("strategy", strategy), dockerfile])))
  }

  function WriteGitSource(g: GitSource): Option<Value> {
    var path :- OmitNil("path", if g.path == "" then None else Some(g.path), WriteStr);
    var build :- WriteBuild(g.build);
    Some(Obj(MembersOf([Always("repo", Str(g.repo)), Always("branch", Str(g.branch)), path, Always("build", build)])))
  }

  function WriteSource(s: Source): Option<Value> {
    var image :- OmitNil("image", s.image, WriteStr);
    var git :- OmitNil("git", s.git, WriteGitSource);
    Some(Obj(MembersOf([image, git])))
  }

  function WriteReplicas(r: Replicas): Value {
    Obj(MembersOf([Always("min", Num(FormatUint(r.min))), Always("max", Num(FormatUint(r.max)))]))
  }

  function WriteIdle(i: Idle): Option<Value> {
    var mode :- WriteEnum(i.mode, "off", IDLE_MODES);
    Some(Obj(MembersOf([Always("mode", mode), Always("after", Str(i.after))])))
  }

  function WriteProtocol(p: string): Option<Value> {
    WriteEnum(p, "http", PROTOCOLS)
  }

  /** Protocol.IsHTTP */
  predicate IsHttp(p: string) {
    p == "" || p == "http"
  }

  /** Process.MarshalJSON: protocol is left out when it is http. */
  function WriteProcess(p: Process): Option<Value> {
    var command :- OmitEmpty("command", p.command, WriteStr);
    var port :- OmitNil("port", p.port, WriteU16);
    var idle :- OmitNil("idle", p.idle, WriteIdle);
    var schedule :- OmitNil("schedule", p.schedule, WriteStr);
    var timeZone :- OmitNil("timeZone", p.timeZone, WriteStr);
    var protocol :- OmitNil("protocol", if IsHttp(p.protocol) then None else Some(p.protocol), WriteProtocol);
    Some(Obj(MembersOf([command, port, Always("size", Str(p.size)), Always("replicas", WriteReplicas(p.replicas)), idle,
                        schedule, timeZone, protocol])))
  }

  function WriteHealthCheck(h: HealthCheck): Option<Value> {
    var port :- OmitNil("port", h.port, WriteU16);
    Some(Obj(MembersOf([Always("path", Str(h.path)), port])))
  }

  /** Runtime.MarshalJSON: a nil map of processes is written as an empty object. */
  function WriteRuntime(r: Runtime): Option<Value> {
    var processes :- WriteTable(OrNoProcesses(r.processes), WriteProcess);
    var healthCheck :- OmitNil("healthCheck", r.healthCheck, WriteHealthCheck);
    var fsGroup :- OmitNil("fsGroup", r.fsGroup, WriteI64);
    Some(Obj(MembersOf([Always("processes", processes), healthCheck, fsGroup])))
  }

  function OrNoProcesses(processes: Option<map<string, Process>>): map<string, Process> {
    if processes.Some? then processes.value else map[]
  }

  function WriteAppSpec(s: AppSpec): Option<Value> {
    var source :- WriteSource(s.source);
    var runtime :- WriteRuntime(s.runtime);
    var env :- OmitEmpty("env", s.env, WriteEnvVar);
    var domains :- OmitEmpty("domains", s.domains, WriteDomain);
    var volumes :- OmitEmpty("volumes", s.volumes, WriteVolume);
    var imagePullSecrets :- OmitEmpty("imagePullSecrets", s.imagePullSecrets, WriteStr);
    Some(Obj(MembersOf([Always("source", source), Always("runtime", runtime), env, domains, volumes, imagePullSecrets])))
  }

  // ---------- What can be written, and how it reads back ----------

  predicate BuildOk(b: Build) {
    b.strategy == "" || b.strategy in BUILD_STRATEGIES
  }

  predicate GitSourceOk(g: GitSource) {
    BuildOk(g.build)
  }

  predicate SourceOk(s: Source) {
    s.git.Some? ==> GitSourceOk(s.git.value)
  }

  predicate IdleOk(i: Idle) {
    i.mode == "" || i.mode in IDLE_MODES
  }

  predicate ProcessOk(p: Process) {
    (p.protocol == "" || p.protocol in PROTOCOLS) && (p.idle.Some? ==> IdleOk(p.idle.value))
  }

  predicate RuntimeOk(r: Runtime) {
    forall k :: k in OrNoProcesses(r.processes) ==> ProcessOk(OrNoProcesses(r.processes)[k])
  }

  /** Every enum of the spec is empty or one of its constants. */
  predicate Encodable(s: AppSpec) {
    SourceOk(s.source) && RuntimeOk(s.runtime)
  }

  function NormBuild(b: Build): Build {
    b.(strategy := OrDefault(b.strategy, "auto"))
  }

  function NormGitSource(g: GitSource): GitSource {
    g.(build := NormBuild(g.build))
  }

  function NormSource(s: Source): Source {
    s.(git := NormOption(s.git, NormGitSource))
  }

  function NormIdle(i: Idle): Idle {
    i.(mode := OrDefault(i.mode, "off"))
  }

  function NormProcess(p: Process): Process {
    p.(command := DropEmpty(p.command), idle := NormOption(p.idle, NormIdle), protocol := OrDefault(p.protocol, "http"))
  }

  function NormRuntime(r: Runtime): Runtime {
    r.(processes := Some(NormTable(OrNoProcesses(r.processes), NormProcess)))
  }

  /** The spec with its defaults filled in and its empty lists nil. */
  function Norm(s: AppSpec): AppSpec {
    AppSpec(NormSource(s.source), NormRuntime(s.runtime),
            DropEmpty(s.env), DropEmpty(s.domains), DropEmpty(s.volumes), DropEmpty(s.imagePullSecrets))
  }

  // ---------- Reading back what was written, part by part ----------

  lemma KeyRefReturns(k: KeyRef, zero: KeyRef)
    ensures Returns(k, true, k, zero, WriteKeyRef, ReadKeyRef)
  {
    hide MembersOf, Field;
    var parts := [Always("name", Str(k.name)), Always("key", Str(k.key))];
    assert Distinct(parts);
    FieldReturns(parts, 0, k.name, zero.name, ReadStr);
    FieldReturns(parts, 1, k.key, zero.key, ReadStr);
  }

  lemma EnvVarReturns(e: EnvVar, zero: EnvVar)
    ensures Returns(e, true, e, zero, WriteEnvVar, ReadEnvVar)
  {
    hide ReadKeyRef, WriteKeyRef, MembersOf, Field, Pointer;
    if e.fromSecret.Some? {
      KeyRefReturns(e.fromSecret.value, NO_KEY_REF);
    }
    if e.fromService.Some? {
      KeyRefReturns(e.fromService.value, NO_KEY_REF);
    }
    var parts := [Always("name", Str(e.name)), OmitNil("value", e.value, WriteStr).value,
                  OmitNil("fromSecret", e.fromSecret, WriteKeyRef).value,
                  OmitNil("fromService", e.fromService, WriteKeyRef).value];
    assert Distinct(parts);
    FieldReturns(parts, 0, e.name, zero.name, ReadStr);
    PointerReturns(parts, 1, e.value, e.value, "", WriteStr, ReadStr);
    PointerReturns(parts, 2, e.fromSecret, e.fromSecret, NO_KEY_REF, WriteKeyRef, ReadKeyRef);
    PointerReturns(parts, 3, e.fromService, e.fromService, NO_KEY_REF, WriteKeyRef, ReadKeyRef);
  }

  lemma DomainReturns(d: Domain, zero: Domain)
    ensures Returns(d, true, d, zero, WriteDomain, ReadDomain)
  {
    hide MembersOf, Field;
    var parts := [Always("host", Str(d.host)), Always("tls", Str(d.tls))];
    assert Distinct(parts);
    FieldReturns(parts, 0, d.host, "", ReadStr);
    FieldReturns(parts, 1, d.tls, DEFAULT_TLS, ReadStr);
  }

  lemma VolumeReturns(v: Volume, zero: Volume)
    ensures Returns(v, true, v, zero, WriteVolume, ReadVolume)
  {
    hide MembersOf, Field, Pointer;
    var parts := [Always("name", Str(v.name)), Always("mountPath", Str(v.mountPath)), Always("size", Str(v.size)),
                  OmitNil("storageClass", v.storageClass, WriteStr).value];
    assert Distinct(parts);
    FieldReturns(parts, 0, v.name, "", ReadStr);
    FieldReturns(parts, 1, v.mountPath, "", ReadStr);
    FieldReturns(parts, 2, v.size, DEFAULT_VOLUME_SIZE, ReadStr);
    PointerReturns(parts, 3, v.storageClass, v.storageClass, "", WriteStr, ReadStr);
  }

  lemma BuildReturns(b: Build, zero: Build)
    ensures Returns(b, BuildOk(b), NormBuild(b), zero, WriteBuild, ReadBuild)
  {
    hide MembersOf, Field, Pointer;
    if BuildOk(b) {
      var strategy := OrDefault(b.strategy, "auto");
      var parts := [Always("strategy", Str(strategy)), OmitNil("dockerfile", b.dockerfile, WriteStr).value];
      assert Distinct(parts);
      FieldReturns(parts, 0, strategy, "auto", ReadStrategy);
      PointerReturns(parts, 1, b.dockerfile, b.dockerfile, "", WriteStr, ReadStr);
    }
  }

  lemma GitSourceReturns(g: GitSource, zero: GitSource)
    ensures Returns(g, GitSourceOk(g), NormGitSource(g), zero, WriteGitSource, ReadGitSource)
  {
    hide MembersOf, Field, ReadBuild, WriteBuild, BuildOk, NormBuild;
    var start := Build("auto", None);
    BuildReturns(g.build, start);
    if GitSourceOk(g) {
      var path := if g.path == "" then None else Some(g.path);
      var parts := [Always("repo", Str(g.repo)), Always("branch", Str(g.branch)),
                    OmitNil("path", path, WriteStr).value, Always("build", WriteBuild(g.build).value)];
      assert Distinct(parts);
      FieldReturns(parts, 0, g.repo, "", ReadStr);
      FieldReturns(parts, 1, g.branch, DEFAULT_BRANCH, ReadStr);
      OmittedReturns(parts, 2, path, g.path, "", WriteStr, ReadStr);
      FieldReturns(parts, 3, NormBuild(g.build), start, ReadBuild);
    }
  }

  lemma SourceReturns(s: Source, zero: Source)
    ensures Returns(s, SourceOk(s), NormSource(s), zero, WriteSource, ReadSource)
  {
    hide MembersOf, Pointer, ReadGitSource, WriteGitSource, GitSourceOk, NormGitSource;
    if s.git.Some? {
      GitSourceReturns(s.git.value, NO_GIT_SOURCE);
    }
    if SourceOk(s) {
      var parts := [OmitNil("image", s.image, WriteStr).value, OmitNil("git", s.git, WriteGitSource).value];
      assert Distinct(parts);
      PointerReturns(parts, 0, s.image, s.image, "", WriteStr, ReadStr);
      PointerReturns(parts, 1, s.git, NormOption(s.git, NormGitSource), NO_GIT_SOURCE, WriteGitSource, ReadGitSource);
    }
  }

  lemma ReplicasReturn(r: Replicas, zero: Replicas)
    ensures ReadReplicas(zero, WriteReplicas(r)) == Some(r)
  {
    hide MembersOf, Field, ParseUint, FormatUint;
    var parts := [Always("min", Num(FormatUint(r.min))), Always("max", Num(FormatUint(r.max)))];
    assert Distinct(parts);
    ParseUintFormat(r.min, TWO_TO_THE_32);
    ParseUintFormat(r.max, TWO_TO_THE_32);
    FieldReturns(parts, 0, r.min, 1, ReadU32);
    FieldReturns(parts, 1, r.max, 1, ReadU32);
  }

  lemma IdleReturns(i: Idle, zero: Idle)
    ensures Returns(i, IdleOk(i), NormIdle(i), zero, WriteIdle, ReadIdle)
  {
    hide MembersOf, Field;
    if IdleOk(i) {
      var mode := OrDefault(i.mode, "off");
      var parts := [Always("mode", Str(mode)), Always("after", Str(i.after))];
      assert Distinct(parts);
      FieldReturns(parts, 0, mode, "off", ReadMode);
      FieldReturns(parts, 1, i.after, DEFAULT_IDLE_AFTER, ReadStr);
    }
  }

  lemma U16Returns(n: u16)
    ensures Returns(n, true, n, 0, WriteU16, ReadU16)
  {
    ParseUintFormat(n, TWO_TO_THE_16);
  }

  lemma I64Returns(n: i64)
    ensures Returns(n, true, n, 0, WriteI64, ReadI64)
  {
    ParseIntFormat(n, TWO_TO_THE_63);
  }

  lemma HealthCheckReturns(h: HealthCheck, zero: HealthCheck)
    ensures Returns(h, true, h, zero, WriteHealthCheck, ReadHealthCheck)
  {
    hide MembersOf, Field, Pointer, ReadU16, WriteU16;
    if h.port.Some? {
      U16Returns(h.port.value);
    }
    var parts := [Always("path", Str(h.path)), OmitNil("port", h.port, WriteU16).value];
    assert Distinct(parts);
    FieldReturns(parts, 0, h.path, zero.path, ReadStr);
    PointerReturns(parts, 1, h.port, h.port, 0, WriteU16, ReadU16);
  }

  lemma ProtocolReturns(p: string)
    requires p in PROTOCOLS
    ensures Returns(p, true, p, "http", WriteProtocol, ReadProtocol)
  {
  }

  /** The written parts of a process whose enums are valid. */
  function PartsOfProcess(p: Process): (parts: seq<Part>)
    requires ProcessOk(p)
  {
    SliceIsWritten("command", p.command, "", WriteStr, ReadStr);
    [OmitEmpty("command", p.command, WriteStr).value, OmitNil("port", p.port, WriteU16).value,
     Always("size", Str(p.size)), Always("replicas", WriteReplicas(p.replicas)), OmitNil("idle", p.idle, WriteIdle).value,
     OmitNil("schedule", p.schedule, WriteStr).value, OmitNil("timeZone", p.timeZone, WriteStr).value,
     OmitNil("protocol", ShownProtocol(p), WriteProtocol).value]
  }

  function ShownProtocol(p: Process): Option<string> {
    if IsHttp(p.protocol) then None else Some(p.protocol)
  }

  lemma ProcessPartsAreDistinct(p: Process)
    requires ProcessOk(p)
    ensures Distinct(PartsOfProcess(p))
  {
    hide OmitEmpty, WriteReplicas, MembersOf;
    SliceIsWritten("command", p.command, "", WriteStr, ReadStr);
  }

  lemma ProcessIsWritten(p: Process)
    ensures WriteProcess(p).Some? <==> ProcessOk(p)
    ensures ProcessOk(p) ==> WriteProcess(p) == Some(Obj(MembersOf(PartsOfProcess(p))))
  {
    hide MembersOf, OmitEmpty, WriteReplicas;
    SliceIsWritten("command", p.command, "", WriteStr, ReadStr);
  }

  lemma ProcessReadsBackFirst(p: Process)
    requires ProcessOk(p) && Distinct(PartsOfProcess(p))
    ensures var o := MembersOf(PartsOfProcess(p));
      && Slice(o, "command", "", ReadStr) == Some(DropEmpty(p.command))
      && Pointer(o, "port", 0, ReadU16) == Some(p.port)
      && Field(o, "size", DEFAULT_PROCESS_SIZE, ReadStr) == Some(p.size)
      && Field(o, "replicas", Replicas(1, 1), ReadReplicas) == Some(p.replicas)
  {
    hide MembersOf, Field, Pointer, Slice, OmitEmpty, WriteIdle, ReadReplicas, WriteReplicas, ReadU16, WriteU16, Distinct;
    if p.port.Some? {
      U16Returns(p.port.value);
    }
    ReplicasReturn(p.replicas, Replicas(1, 1));
    var parts := PartsOfProcess(p);
    SliceIsWritten("command", p.command, "", WriteStr, ReadStr);
    SliceReturns(parts, 0, p.command, "", WriteStr, ReadStr);
    PointerReturns(parts, 1, p.port, p.port, 0, WriteU16, ReadU16);
    FieldReturns(parts, 2, p.size, DEFAULT_PROCESS_SIZE, ReadStr);
    FieldReturns(parts, 3, p.replicas, Replicas(1, 1), ReadReplicas);
  }

  lemma ProcessReadsBackLast(p: Process)
    requires ProcessOk(p) && Distinct(PartsOfProcess(p))
    ensures var o := MembersOf(PartsOfProcess(p));
      && Pointer(o, "idle", NO_IDLE, ReadIdle) == Some(NormOption(p.idle, NormIdle))
      && Pointer(o, "schedule", "", ReadStr) == Some(p.schedule)
      && Pointer(o, "timeZone", "", ReadStr) == Some(p.timeZone)
      && Field(o, "protocol", "http", ReadProtocol) == Some(OrDefault(p.protocol, "http"))
  {
    hide MembersOf, Field, Pointer, OmitEmpty, ReadIdle, WriteIdle, WriteReplicas, WriteU16, Distinct;
    if p.idle.Some? {
      IdleReturns(p.idle.value, NO_IDLE);
    }
    if !IsHttp(p.protocol) {
      ProtocolReturns(p.protocol);
    }
    var parts := PartsOfProcess(p);
    PointerReturns(parts, 4, p.idle, NormOption(p.idle, NormIdle), NO_IDLE, WriteIdle, ReadIdle);
    PointerReturns(parts, 5, p.schedule, p.schedule, "", WriteStr, ReadStr);
    PointerReturns(parts, 6, p.timeZone, p.timeZone, "", WriteStr, ReadStr);
    OmittedReturns(parts, 7, ShownProtocol(p), OrDefault(p.protocol, "http"), "http", WriteProtocol, ReadProtocol);
  }

  lemma ProcessReturns(p: Process, zero: Process)
    ensures Returns(p, ProcessOk(p), NormProcess(p), zero, WriteProcess, ReadProcess)
  {
    hide WriteProcess, PartsOfProcess, MembersOf, Field, Pointer, Slice, DropEmpty, OrDefault, Distinct;
    ProcessIsWritten(p);
    if ProcessOk(p) {
      ProcessPartsAreDistinct(p);
      ProcessReadsBackFirst(p);
      ProcessReadsBackLast(p);
    }
  }

  lemma RuntimeReturns(r: Runtime, zero: Runtime)
    ensures Returns(r, RuntimeOk(r), NormRuntime(r), zero, WriteRuntime, ReadRuntime)
  {
    hide MembersOf, Table, Pointer, WriteTable, ReadProcess, WriteProcess, ProcessOk, NormProcess, ReadHealthCheck,
         WriteHealthCheck, ReadI64, WriteI64;
    var processes := OrNoProcesses(r.processes);
    forall k | k in processes
      ensures Returns(processes[k], ProcessOk(processes[k]), NormProcess(processes[k]), NO_PROCESS, WriteProcess, ReadProcess)
    {
      ProcessReturns(processes[k], NO_PROCESS);
    }
    TableIsWritten(processes, ProcessOk, NormProcess, NO_PROCESS, WriteProcess, ReadProcess);
    if r.healthCheck.Some? {
      HealthCheckReturns(r.healthCheck.value, NO_HEALTH_CHECK);
    }
    if r.fsGroup.Some? {
      I64Returns(r.fsGroup.value);
    }
    if RuntimeOk(r) {
      var parts := [Always("processes", WriteTable(processes, WriteProcess).value),
                    OmitNil("healthCheck", r.healthCheck, WriteHealthCheck).value,
                    OmitNil("fsGroup", r.fsGroup, WriteI64).value];
      assert Distinct(parts);
      TableReturns(parts, 0, processes, ProcessOk, NormProcess, NO_PROCESS, WriteProcess, ReadProcess);
      PointerReturns(parts, 1, r.healthCheck, r.healthCheck, NO_HEALTH_CHECK, WriteHealthCheck, ReadHealthCheck);
      PointerReturns(parts, 2, r.fsGroup, r.fsGroup, 0, WriteI64, ReadI64);
    }
  }

  // ---------- The whole spec ----------

  lemma ListsAreWritten(s: AppSpec)
    ensures OmitEmpty("env", s.env, WriteEnvVar).Some?
    ensures OmitEmpty("domains", s.domains, WriteDomain).Some?
    ensures OmitEmpty("volumes", s.volumes, WriteVolume).Some?
    ensures OmitEmpty("imagePullSecrets", s.imagePullSecrets, WriteStr).Some?
  {
    hide WriteEnvVar, ReadEnvVar, WriteDomain, ReadDomain, WriteVolume, ReadVolume, OmitEmpty;
    EveryItemReturns();
    SliceIsWritten("env", s.env, NO_ENV_VAR, WriteEnvVar, ReadEnvVar);
    SliceIsWritten("domains", s.domains, NO_DOMAIN, WriteDomain, ReadDomain);
    SliceIsWritten("volumes", s.volumes, NO_VOLUME, WriteVolume, ReadVolume);
    SliceIsWritten("imagePullSecrets", s.imagePullSecrets, "", WriteStr, ReadStr);
  }

  lemma EveryItemReturns()
    ensures forall x: EnvVar :: Returns(x, true, x, NO_ENV_VAR, WriteEnvVar, ReadEnvVar)
    ensures forall x: Domain :: Returns(x, true, x, NO_DOMAIN, WriteDomain, ReadDomain)
    ensures forall x: Volume :: Returns(x, true, x, NO_VOLUME, WriteVolume, ReadVolume)
  {
    hide Returns;
    forall x: EnvVar ensures Returns(x, true, x, NO_ENV_VAR, WriteEnvVar, ReadEnvVar) {
      EnvVarReturns(x, NO_ENV_VAR);
    }
    forall x: Domain ensures Returns(x, true, x, NO_DOMAIN, WriteDomain, ReadDomain) {
      DomainReturns(x, NO_DOMAIN);
    }
    forall x: Volume ensures Returns(x, true, x, NO_VOLUME, WriteVolume, ReadVolume) {
      VolumeReturns(x, NO_VOLUME);
    }
  }

  function PartsOfAppSpec(s: AppSpec): seq<Part>
    requires WriteSource(s.source).Some? && WriteRuntime(s.runtime).Some?
  {
    ListsAreWritten(s);
    [Always("source", WriteSource(s.source).value), Always("runtime", WriteRuntime(s.runtime).value),
     OmitEmpty("env", s.env, WriteEnvVar).value, OmitEmpty("domains", s.domains, WriteDomain).value,
     OmitEmpty("volumes", s.volumes, WriteVolume).value,
     OmitEmpty("imagePullSecrets", s.imagePullSecrets, WriteStr).value]
  }

  lemma AppSpecIsWritten(s: AppSpec)
    ensures WriteSource(s.source).Some? <==> SourceOk(s.source)
    ensures WriteRuntime(s.runtime).Some? <==> RuntimeOk(s.runtime)
    ensures WriteAppSpec(s).Some? <==> Encodable(s)
    ensures Encodable(s) ==> WriteAppSpec(s) == Some(Obj(MembersOf(PartsOfAppSpec(s)))) && Distinct(PartsOfAppSpec(s))
  {
    hide WriteSource, WriteRuntime, MembersOf, OmitEmpty, SourceOk, RuntimeOk, NormSource, NormRuntime, ReadSource, ReadRuntime;
    SourceReturns(s.source, NO_SOURCE);
    RuntimeReturns(s.runtime, NO_RUNTIME);
    ListsAreWritten(s);
  }

  lemma AppSpecReadsBack(s: AppSpec)
    requires Encodable(s)
    ensures WriteSource(s.source).Some? && WriteRuntime(s.runtime).Some?
    ensures ReadAppSpec(NO_APP_SPEC, Obj(MembersOf(PartsOfAppSpec(s)))) == Some(Norm(s))
  {
    hide MembersOf, Field, Slice, Distinct, SourceOk, RuntimeOk, NormSource, NormRuntime, ReadSource, ReadRuntime, WriteSource,
         WriteRuntime, OmitEmpty, WriteEnvVar, ReadEnvVar, WriteDomain, ReadDomain, WriteVolume, ReadVolume, DropEmpty;
    AppSpecIsWritten(s);
    SourceReturns(s.source, NO_SOURCE);
    RuntimeReturns(s.runtime, NO_RUNTIME);
    ListsAreWritten(s);
    EveryItemReturns();
    var parts := PartsOfAppSpec(s);
    FieldReturns(parts, 0, NormSource(s.source), NO_SOURCE, ReadSource);
    FieldReturns(parts, 1, NormRuntime(s.runtime), NO_RUNTIME, ReadRuntime);
    SliceReturns(parts, 2, s.env, NO_ENV_VAR, WriteEnvVar, ReadEnvVar);
    SliceReturns(parts, 3, s.domains, NO_DOMAIN, WriteDomain, ReadDomain);
    SliceReturns(parts, 4, s.volumes, NO_VOLUME, WriteVolume, ReadVolume);
    SliceReturns(parts, 5, s.imagePullSecrets, "", WriteStr, ReadStr);
  }

  // ---------- The check accepts what is written ----------

  lemma LeafIsWhole(members: seq<string>, v: Value)
    requires v.Obj? && forall m :: m in members ==> !Absent(v, m)
    ensures Whole(Leaf(members), v)
  {
    WholeFromParts(Leaf(members), v);
  }

  lemma KeyRefIsWhole(k: KeyRef)
    ensures Whole(KeyRefShape, WriteKeyRef(k).value)
  {
    hide MembersOf;
    var parts := [Always("name", Str(k.name)), Always("key", Str(k.key))];
    PartShows(parts, 0);
    PartShows(parts, 1);
    LeafIsWhole(["name", "key"], WriteKeyRef(k).value);
  }

  lemma OptionalKeyRefIsWhole(k: Option<KeyRef>, v: Value)
    requires v == if k.Some? then WriteKeyRef(k.value).value else Null
    ensures Whole(KeyRefShape, v)
  {
    hide WriteKeyRef, Whole;
    if k.Some? {
      KeyRefIsWhole(k.value);
    } else {
      NoObjectLacksNothing(KeyRefShape, v);
    }
  }

  lemma EnvVarIsWhole(e: EnvVar)
    requires WriteEnvVar(e).Some?
    ensures Whole(EnvVarShape, WriteEnvVar(e).value)
  {
    hide MembersOf, WriteKeyRef, Whole, KeyRefShape;
    var v := WriteEnvVar(e).value;
    var parts := [Always("name", Str(e.name)), OmitNil("value", e.value, WriteStr).value,
                  OmitNil("fromSecret", e.fromSecret, WriteKeyRef).value,
                  OmitNil("fromService", e.fromService, WriteKeyRef).value];
    assert Distinct(parts);
    PartShows(parts, 0);
    PartAt(parts, 2);
    PartAt(parts, 3);
    OptionalKeyRefIsWhole(e.fromSecret, v.At("fromSecret"));
    OptionalKeyRefIsWhole(e.fromService, v.At("fromService"));
    WholeFromParts(EnvVarShape, v);
  }

  lemma DomainIsWhole(d: Domain)
    ensures Whole(DomainShape, WriteDomain(d).value)
  {
    hide MembersOf;
    PartShows([Always("host", Str(d.host)), Always("tls", Str(d.tls))], 0);
    LeafIsWhole(["host"], WriteDomain(d).value);
  }

  lemma VolumeIsWhole(v: Volume)
    requires WriteVolume(v).Some?
    ensures Whole(VolumeShape, WriteVolume(v).value)
  {
    hide MembersOf;
    var parts := [Always("name", Str(v.name)), Always("mountPath", Str(v.mountPath)), Always("size", Str(v.size)),
                  OmitNil("storageClass", v.storageClass, WriteStr).value];
    assert Distinct(parts);
    PartShows(parts, 0);
    PartShows(parts, 1);
    LeafIsWhole(["name", "mountPath"], WriteVolume(v).value);
  }

  lemma GitSourceIsWhole(g: GitSource)
    requires WriteGitSource(g).Some?
    ensures Whole(GitSourceShape, WriteGitSource(g).value)
  {
    hide MembersOf, WriteBuild;
    var path := if g.path == "" then None else Some(g.path);
    var parts := [Always("repo", Str(g.repo)), Always("branch", Str(g.branch)),
                  OmitNil("path", path, WriteStr).value, Always("build", WriteBuild(g.build).value)];
    assert Distinct(parts);
    PartShows(parts, 0);
    LeafIsWhole(["repo"], WriteGitSource(g).value);
  }

  lemma SourceIsWhole(s: Source)
    requires WriteSource(s).Some?
    ensures Whole(SourceShape, WriteSource(s).value) && WriteSource(s).value.Obj?
  {
    hide MembersOf, WriteGitSource, Whole, GitSourceShape;
    var v := WriteSource(s).value;
    var parts := [OmitNil("image", s.image, WriteStr).value, OmitNil("git", s.git, WriteGitSource).value];
    assert Distinct(parts);
    PartAt(parts, 1);
    if s.git.Some? {
      GitSourceIsWhole(s.git.value);
    } else {
      NoObjectLacksNothing(GitSourceShape, v.At("git"));
    }
    WholeFromParts(SourceShape, v);
  }

  lemma HealthCheckIsWhole(h: HealthCheck)
    requires WriteHealthCheck(h).Some?
    ensures Whole(HealthCheckShape, WriteHealthCheck(h).value)
  {
    hide MembersOf, WriteU16;
    var parts := [Always("path", Str(h.path)), OmitNil("port", h.port, WriteU16).value];
    assert Distinct(parts);
    PartShows(parts, 0);
    LeafIsWhole(["path"], WriteHealthCheck(h).value);
  }

  lemma RuntimeIsWhole(r: Runtime)
    requires WriteRuntime(r).Some?
    ensures Whole(RuntimeShape, WriteRuntime(r).value) && WriteRuntime(r).value.Obj?
  {
    hide MembersOf, WriteProcess, WriteHealthCheck, WriteI64, Whole, HealthCheckShape;
    var v := WriteRuntime(r).value;
    var parts := [Always("processes", WriteTable(OrNoProcesses(r.processes), WriteProcess).value),
                  OmitNil("healthCheck", r.healthCheck, WriteHealthCheck).value,
                  OmitNil("fsGroup", r.fsGroup, WriteI64).value];
    assert Distinct(parts);
    PartShows(parts, 0);
    PartAt(parts, 1);
    if r.healthCheck.Some? {
      HealthCheckIsWhole(r.healthCheck.value);
    } else {
      NoObjectLacksNothing(HealthCheckShape, v.At("healthCheck"));
    }
    WholeFromParts(RuntimeShape, v);
  }

  lemma SliceIsWhole<T(!new)>(parts: seq<Part>, i: nat, xs: Option<seq<T>>, write: T -> Option<Value>, shape: Shape)
    requires Distinct(parts) && i < |parts| && OmitEmpty(parts[i].name, xs, write) == Some(parts[i])
    requires forall x :: write(x).Some? ==> Whole(shape, write(x).value)
    ensures WholeItems(shape, Obj(MembersOf(parts)).At(parts[i].name))
  {
    hide Whole;
    PartAt(parts, i);
    if parts[i].value.Some? {
      var items := WriteItems(xs.value, write).value;
      forall j | 0 <= j < |items| ensures Whole(shape, items[j]) {
        ItemWritten(xs.value, write, j);
      }
    }
  }

  /** The strict check accepts whatever the encoder writes. */
  lemma WrittenIsWhole(s: AppSpec)
    requires Encodable(s)
    ensures WriteAppSpec(s).Some? && Whole(AppSpecShape, WriteAppSpec(s).value)
  {
    hide MembersOf, Distinct, Whole, SourceOk, RuntimeOk, WriteSource, WriteRuntime, OmitEmpty, WriteEnvVar, WriteDomain,
         WriteVolume, SourceShape, RuntimeShape, EnvVarShape, DomainShape, VolumeShape;
    AppSpecIsWritten(s);
    ListsAreWritten(s);
    var parts := PartsOfAppSpec(s);
    PartShows(parts, 0);
    PartShows(parts, 1);
    SourceIsWhole(s.source);
    RuntimeIsWhole(s.runtime);
    EveryItemIsWhole();
    SliceIsWhole(parts, 2, s.env, WriteEnvVar, EnvVarShape);
    SliceIsWhole(parts, 3, s.domains, WriteDomain, DomainShape);
    SliceIsWhole(parts, 4, s.volumes, WriteVolume, VolumeShape);
    WholeFromParts(AppSpecShape, WriteAppSpec(s).value);
  }

  lemma EveryItemIsWhole()
    ensures forall x: EnvVar :: WriteEnvVar(x).Some? ==> Whole(EnvVarShape, WriteEnvVar(x).value)
    ensures forall x: Domain :: WriteDomain(x).Some? ==> Whole(DomainShape, WriteDomain(x).value)
    ensures forall x: Volume :: WriteVolume(x).Some? ==> Whole(VolumeShape, WriteVolume(x).value)
  {
    hide Whole, WriteEnvVar, WriteDomain, WriteVolume, EnvVarShape, DomainShape, VolumeShape;
    forall x: EnvVar | WriteEnvVar(x).Some? ensures Whole(EnvVarShape, WriteEnvVar(x).value) {
      EnvVarIsWhole(x);
    }
    forall x: Domain | WriteDomain(x).Some? ensures Whole(DomainShape, WriteDomain(x).value) {
      DomainIsWhole(x);
    }
    forall x: Volume | WriteVolume(x).Some? ensures Whole(VolumeShape, WriteVolume(x).value) {
      VolumeIsWhole(x);
    }
  }

  /** Writing succeeds exactly for a spec whose enums are valid or empty, and DecodeAppSpec takes
  back what was written, with its defaults filled in. */
  lemma DecodeOfWrite(s: AppSpec)
    ensures WriteAppSpec(s).Some? <==> Encodable(s)
    ensures Encodable(s) ==> DecodeAppSpec(WriteAppSpec(s).value) == Ok(Norm(s))
  {
    hide Check, WriteAppSpec, ReadAppSpec, Whole, AppSpecShape, Encodable, Norm, PartsOfAppSpec;
    AppSpecIsWritten(s);
    if Encodable(s) {
      WrittenIsWhole(s);
      WholeIsAccepted(AppSpecShape, WriteAppSpec(s).value);
      AppSpecReadsBack(s);
    }
  }

  // ---------- Defaults ----------

  /** What a text member says, or the default when it is missing or null. */
  function TextOr(o: Members, m: string, default: string): string {
    if m in o && o[m].Str? then o[m].s else default
  }

  predicate Missing(o: Members, m: string) {
    m !in o || o[m].Null?
  }

  /** What reading fills in for members that are missing or null; a null enum is refused. */
  lemma DefaultsAreFilledIn(o: Members)
    ensures var r := ReadVolume(NO_VOLUME, Obj(o)); r.Some? ==> r.value.size == TextOr(o, "size", "1Gi")
    ensures var r := ReadDomain(NO_DOMAIN, Obj(o)); r.Some? ==> r.value.tls == TextOr(o, "tls", "auto")
    ensures var r := ReadBuild(NO_BUILD, Obj(o)); r.Some? ==> r.value.strategy == TextOr(o, "strategy", "auto")
    ensures "strategy" in o && o["strategy"].Null? ==> ReadBuild(NO_BUILD, Obj(o)) == None
    ensures var r := ReadGitSource(NO_GIT_SOURCE, Obj(o)); r.Some? ==>
      r.value.branch == TextOr(o, "branch", "main") && (Missing(o, "build") ==> r.value.build == Build("auto", None))
    ensures var r := ReadIdle(NO_IDLE, Obj(o)); r.Some? ==>
      r.value.mode == TextOr(o, "mode", "off") && r.value.after == TextOr(o, "after", "15m")
    ensures "mode" in o && o["mode"].Null? ==> ReadIdle(NO_IDLE, Obj(o)) == None
    ensures var r := ReadProcess(NO_PROCESS, Obj(o)); r.Some? ==>
      && r.value.size == TextOr(o, "size", "small") && r.value.protocol == TextOr(o, "protocol", "http")
      && (Missing(o, "replicas") ==> r.value.replicas == Replicas(1, 1))
    ensures "protocol" in o && o["protocol"].Null? ==> ReadProcess(NO_PROCESS, Obj(o)) == None
    ensures var r := ReadReplicas(NO_REPLICAS, Obj(o)); r.Some? ==>
      (Missing(o, "min") ==> r.value.min == 1) && (Missing(o, "max") ==> r.value.max == 1)
  {
    hide ReadVolume, ReadDomain, ReadBuild, ReadGitSource, ReadIdle, ReadProcess, ReadReplicas, TextOr, Missing;
    VolumeDefaults(o);
    DomainDefaults(o);
    BuildDefaults(o);
    GitSourceDefaults(o);
    IdleDefaults(o);
    ProcessDefaults(o);
    ReplicasDefaults(o);
  }

  lemma VolumeDefaults(o: Members)
    ensures var r := ReadVolume(NO_VOLUME, Obj(o)); r.Some? ==> r.value.size == TextOr(o, "size", "1Gi")
  {
  }

  lemma DomainDefaults(o: Members)
    ensures var r := ReadDomain(NO_DOMAIN, Obj(o)); r.Some? ==> r.value.tls == TextOr(o, "tls", "auto")
  {
  }

  lemma BuildDefaults(o: Members)
    ensures var r := ReadBuild(NO_BUILD, Obj(o)); r.Some? ==> r.value.strategy == TextOr(o, "strategy", "auto")
    ensures "strategy" in o && o["strategy"].Null? ==> ReadBuild(NO_BUILD, Obj(o)) == None
  {
  }

  lemma GitSourceDefaults(o: Members)
    ensures var r := ReadGitSource(NO_GIT_SOURCE, Obj(o)); r.Some? ==>
      r.value.branch == TextOr(o, "branch", "main") && (Missing(o, "build") ==> r.value.build == Build("auto", None))
  {
  }

  lemma ProcessDefaults(o: Members)
    ensures var r := ReadProcess(NO_PROCESS, Obj(o)); r.Some? ==>
      && r.value.size == TextOr(o, "size", "small") && r.value.protocol == TextOr(o, "protocol", "http")
      && (Missing(o, "replicas") ==> r.value.replicas == Replicas(1, 1))
    ensures "protocol" in o && o["protocol"].Null? ==> ReadProcess(NO_PROCESS, Obj(o)) == None
  {
    hide Pointer, Slice, ReadU32, ReadIdle;
  }

  lemma IdleDefaults(o: Members)
    ensures var r := ReadIdle(NO_IDLE, Obj(o)); r.Some? ==>
      r.value.mode == TextOr(o, "mode", "off") && r.value.after == TextOr(o, "after", "15m")
    ensures "mode" in o && o["mode"].Null? ==> ReadIdle(NO_IDLE, Obj(o)) == None
  {
  }

  lemma ReplicasDefaults(o: Members)
    ensures var r := ReadReplicas(NO_REPLICAS, Obj(o)); r.Some? ==>
      (Missing(o, "min") ==> r.value.min == 1) && (Missing(o, "max") ==> r.value.max == 1)
  {
  }

  // ---------- Writing what was read ----------

  lemma BuildSettles(was: Build, v: Value)
    requires ReadBuild(was, v).Some?
    ensures BuildOk(ReadBuild(was, v).value) && NormBuild(ReadBuild(was, v).value) == ReadBuild(was, v).value
  {
  }

  lemma GitSourceSettles(was: GitSource, v: Value)
    requires ReadGitSource(was, v).Some?
    ensures var g := ReadGitSource(was, v).value; GitSourceOk(g) && NormGitSource(g) == g
  {
    hide ReadBuild;
    var start := Build("auto", None);
    assert BuildOk(start) && NormBuild(start) == start;
    if v.Obj? && "build" in v.members {
      BuildSettles(start, v.members["build"]);
    }
  }

  lemma SourceSettles(v: Value)
    requires ReadSource(NO_SOURCE, v).Some?
    ensures var s := ReadSource(NO_SOURCE, v).value; SourceOk(s) && NormSource(s) == s
  {
    hide ReadGitSource, GitSourceOk, NormGitSource;
    if v.Obj? && "git" in v.members && !v.members["git"].Null? {
      GitSourceSettles(NO_GIT_SOURCE, v.members["git"]);
    }
  }

  lemma IdleSettles(v: Value)
    requires ReadIdle(NO_IDLE, v).Some?
    ensures var i := ReadIdle(NO_IDLE, v).value; IdleOk(i) && NormIdle(i) == i
  {
  }

  /** The process with an empty command nil. */
  function TrimProcess(p: Process): Process {
    p.(command := DropEmpty(p.command))
  }

  function TrimRuntime(r: Runtime): Runtime {
    r.(processes := Some(NormTable(OrNoProcesses(r.processes), TrimProcess)))
  }

  /** The spec with its empty lists nil and its nil map of processes empty: as good as the same,
  for Go code ranges over nil and empty alike. */
  function Trim(s: AppSpec): AppSpec {
    AppSpec(s.source, TrimRuntime(s.runtime), DropEmpty(s.env), DropEmpty(s.domains), DropEmpty(s.volumes),
            DropEmpty(s.imagePullSecrets))
  }

  predicate TightRuntime(r: Runtime) {
    r.processes.Some? && forall k :: k in r.processes.value ==> r.processes.value[k].command != Some([])
  }

  /** No list of the spec is empty but not nil, and its map of processes is not nil. */
  predicate Tight(s: AppSpec) {
    && TightRuntime(s.runtime)
    && s.env != Some([]) && s.domains != Some([]) && s.volumes != Some([]) && s.imagePullSecrets != Some([])
  }

  lemma ProcessSettles(was: Process, v: Value)
    requires ReadProcess(was, v).Some?
    ensures var p := ReadProcess(was, v).value; ProcessOk(p) && NormProcess(p) == TrimProcess(p)
  {
    hide ReadIdle, IdleOk, NormIdle, ReadReplicas, Slice, DropEmpty;
    if v.Obj? && "idle" in v.members && !v.members["idle"].Null? {
      IdleSettles(v.members["idle"]);
    }
  }

  lemma RuntimeSettles(v: Value)
    requires ReadRuntime(NO_RUNTIME, v).Some?
    ensures var r := ReadRuntime(NO_RUNTIME, v).value; RuntimeOk(r) && NormRuntime(r) == TrimRuntime(r)
  {
    hide ReadProcess, ProcessOk, NormProcess, TrimProcess, Pointer;
    var r := ReadRuntime(NO_RUNTIME, v).value;
    var processes := OrNoProcesses(r.processes);
    forall k | k in processes ensures ProcessOk(processes[k]) && NormProcess(processes[k]) == TrimProcess(processes[k]) {
      ProcessSettles(NO_PROCESS, v.members["processes"].members[k]);
    }
    assert NormTable(processes, NormProcess) == NormTable(processes, TrimProcess);
  }

  lemma TightIsTrim(s: AppSpec)
    ensures Trim(s) == s <==> Tight(s)
  {
    if s.runtime.processes.Some? {
      var t := s.runtime.processes.value;
      if forall k :: k in t ==> t[k].command != Some([]) {
        assert NormTable(t, TrimProcess) == t;
      } else {
        var k :| k in t && t[k].command == Some([]);
        assert NormTable(t, TrimProcess)[k] != t[k];
      }
    }
  }

  lemma ZeroSettles()
    ensures SourceOk(NO_SOURCE) && NormSource(NO_SOURCE) == NO_SOURCE
    ensures RuntimeOk(NO_RUNTIME) && NormRuntime(NO_RUNTIME) == TrimRuntime(NO_RUNTIME)
  {
    assert NormTable(map[], NormProcess) == NormTable(map[], TrimProcess);
  }

  lemma AppSpecSettles(v: Value)
    requires ReadAppSpec(NO_APP_SPEC, v).Some?
    ensures var s := ReadAppSpec(NO_APP_SPEC, v).value; Encodable(s) && Norm(s) == Trim(s)
  {
    hide ReadSource, ReadRuntime, SourceOk, RuntimeOk, NormSource, NormRuntime, TrimRuntime, Slice;
    if v.Obj? && "source" in v.members {
      SourceSettles(v.members["source"]);
    }
    if v.Obj? && "runtime" in v.members {
      RuntimeSettles(v.members["runtime"]);
    }
    ZeroSettles();
  }

  /** The lists of an app's specification, which are left out when empty. */
  const LISTS := ["env", "domains", "volumes", "imagePullSecrets"]

  predicate EmptyCommand(process: Value) {
    process.Obj? && process.At("command") == Arr([])
  }

  /** No list of the document is [], neither its own nor a process's command. */
  predicate NoEmptyList(v: Value)
    requires v.Obj?
  {
    && (forall k :: k in LISTS ==> v.At(k) != Arr([]))
    && (v.At("runtime").Obj? && v.At("runtime").At("processes").Obj? ==>
          forall p :: p in v.At("runtime").At("processes").members ==>
            !EmptyCommand(v.At("runtime").At("processes").members[p]))
  }

  lemma ProcessesAreTight(v: Value)
    requires ReadRuntime(NO_RUNTIME, v).Some? && v.Obj? && v.At("processes").Obj?
    ensures TightRuntime(ReadRuntime(NO_RUNTIME, v).value) <==>
      forall p :: p in v.At("processes").members ==> !EmptyCommand(v.At("processes").members[p])
  {
    hide ReadProcess, Pointer;
    var processes := v.At("processes").members;
    var read := ReadRuntime(NO_RUNTIME, v).value.processes.value;
    forall p | p in processes ensures read[p].command == Some([]) <==> EmptyCommand(processes[p]) {
      CommandIsTight(processes[p]);
    }
  }

  lemma CommandIsTight(v: Value)
    requires ReadProcess(NO_PROCESS, v).Some?
    ensures ReadProcess(NO_PROCESS, v).value.command == Some([]) <==> EmptyCommand(v)
  {
    hide Pointer, Field, Slice;
    if v.Obj? {
      EmptySlice(v.members, "command", "", ReadStr);
    }
  }

  /** What DecodeAppSpec sees of the runtime: it is there, and its processes are. */
  lemma RuntimeIsThere(v: Value)
    requires DecodeAppSpec(v).Ok? && v.Obj?
    ensures v.At("runtime").Obj? && v.At("runtime").At("processes").Obj?
    ensures ReadRuntime(NO_RUNTIME, v.At("runtime")) == Some(DecodeAppSpec(v).value.runtime)
  {
    hide Check, ReadSource, ReadProcess, Slice, Pointer;
    WholeIsAccepted(AppSpecShape, v);
    assert !Lacks(AppSpecShape, v, Own("runtime"));
    assert !Lacks(AppSpecShape, v, In("runtime", Own("processes")));
  }

  /** A spec that was read is tight exactly when its document has no empty list and is not null. */
  lemma TightExactlyWhenNoEmptyList(v: Value)
    requires DecodeAppSpec(v).Ok?
    ensures Tight(DecodeAppSpec(v).value) <==> v.Obj? && NoEmptyList(v)
  {
    hide Check, ReadAppSpec, ReadRuntime, Slice, EmptyCommand, TightRuntime;
    if v.Obj? {
      ListsAreRead(v);
      EmptySlice(v.members, "env", NO_ENV_VAR, ReadEnvVar);
      EmptySlice(v.members, "domains", NO_DOMAIN, ReadDomain);
      EmptySlice(v.members, "volumes", NO_VOLUME, ReadVolume);
      EmptySlice(v.members, "imagePullSecrets", "", ReadStr);
      RuntimeIsThere(v);
      ProcessesAreTight(v.At("runtime"));
      assert "env" in LISTS && "domains" in LISTS && "volumes" in LISTS && "imagePullSecrets" in LISTS;
    } else {
      OnlyNullIsRead(v);
      NullIsNotTight();
    }
  }

  lemma NullIsNotTight()
    ensures ReadAppSpec(NO_APP_SPEC, Null) == Some(NO_APP_SPEC) && !Tight(NO_APP_SPEC)
  {
  }

  /** Whatever DecodeAppSpec accepts can be written, and reads back as the same spec but for its
  empty lists; so it is a fixed point exactly when the document has none and is not null. */
  lemma WriteOfDecode(v: Value)
    requires DecodeAppSpec(v).Ok?
    ensures var s := DecodeAppSpec(v).value;
      && WriteAppSpec(s).Some? && DecodeAppSpec(WriteAppSpec(s).value) == Ok(Trim(s))
      && (DecodeAppSpec(WriteAppSpec(s).value) == Ok(s) <==> v.Obj? && NoEmptyList(v))
  {
    hide Check, ReadAppSpec, WriteAppSpec, NoEmptyList, Tight, Trim, Norm, Encodable;
    var s := DecodeAppSpec(v).value;
    AppSpecSettles(v);
    TightIsTrim(s);
    TightExactlyWhenNoEmptyList(v);
    DecodeOfWrite(s);
  }

  // ---------- What an accepted document has ----------

  /** A value that a struct is read from, of a shape without children. */
  lemma LeafIsShaped(members: seq<string>, v: Value)
    requires v.Obj? || v.Null?
    ensures Shaped(Leaf(members), v) && NoNullItems(Leaf(members), v)
  {
  }

  lemma KeyRefIsShaped(v: Value, k: string)
    requires v.Obj? && Pointer(v.members, k, NO_KEY_REF, ReadKeyRef).Some?
    ensures Shaped(KeyRefShape, v.At(k)) && NoNullItems(KeyRefShape, v.At(k))
  {
    LeafIsShaped(["name", "key"], v.At(k));
  }

  lemma EnvVarIsShaped(v: Value)
    requires ReadEnvVar(NO_ENV_VAR, v).Some?
    ensures Shaped(EnvVarShape, v) && NoNullItems(EnvVarShape, v)
  {
    if v.Obj? {
      hide Pointer, Field, KeyRefShape;
      KeyRefIsShaped(v, "fromSecret");
      KeyRefIsShaped(v, "fromService");
    }
  }

  lemma SourceIsShaped(v: Value)
    requires ReadSource(NO_SOURCE, v).Some?
    ensures Shaped(SourceShape, v) && NoNullItems(SourceShape, v)
  {
    if v.Obj? {
      LeafIsShaped(["repo"], v.At("git"));
    }
  }

  lemma RuntimeIsShaped(v: Value)
    requires ReadRuntime(NO_RUNTIME, v).Some?
    ensures Shaped(RuntimeShape, v) && NoNullItems(RuntimeShape, v)
  {
    hide Table;
    if v.Obj? {
      LeafIsShaped(["path"], v.At("healthCheck"));
    }
  }

  /** The elements of a list that is read: of the right kind, and nothing below them is null. */
  lemma SliceIsShaped<T(!new)>(v: Value, k: string, zero: T, read: (T, Value) -> Option<T>, shape: Shape)
    requires v.Obj? && Slice(v.members, k, zero, read).Some?
    requires forall x :: read(zero, x).Some? ==> Shaped(shape, x) && NoNullItems(shape, x)
    ensures v.At(k).Null? || ShapedItems(shape, v.At(k))
    ensures v.At(k).Arr? ==> (NoNullIn(shape, v.At(k)) <==> Null !in v.At(k).items)
  {
    hide Shaped, NoNullItems;
    if v.At(k).Arr? {
      var items := v.At(k).items;
      forall i | 0 <= i < |items| ensures Shaped(shape, items[i]) && NoNullItems(shape, items[i]) {
        ItemRead(items, zero, read, i);
      }
    }
  }

  lemma EveryItemIsShaped()
    ensures forall x :: ReadEnvVar(NO_ENV_VAR, x).Some? ==> Shaped(EnvVarShape, x) && NoNullItems(EnvVarShape, x)
    ensures forall x :: ReadDomain(NO_DOMAIN, x).Some? ==> Shaped(DomainShape, x) && NoNullItems(DomainShape, x)
    ensures forall x :: ReadVolume(NO_VOLUME, x).Some? ==> Shaped(VolumeShape, x) && NoNullItems(VolumeShape, x)
  {
    hide Shaped, NoNullItems;
    forall x | ReadEnvVar(NO_ENV_VAR, x).Some? ensures Shaped(EnvVarShape, x) && NoNullItems(EnvVarShape, x) {
      EnvVarIsShaped(x);
    }
    forall x | ReadDomain(NO_DOMAIN, x).Some? ensures Shaped(DomainShape, x) && NoNullItems(DomainShape, x) {
      LeafIsShaped(["host"], x);
    }
    forall x | ReadVolume(NO_VOLUME, x).Some? ensures Shaped(VolumeShape, x) && NoNullItems(VolumeShape, x) {
      LeafIsShaped(["name", "mountPath"], x);
    }
  }

  /** The lists whose elements have required members. */
  const SHAPED_LISTS := ["env", "domains", "volumes"]

  /** No element of these lists is null. */
  predicate NoNullElement(v: Value) {
    v.Obj? ==> forall k :: k in SHAPED_LISTS && v.At(k).Arr? ==> Null !in v.At(k).items
  }

  lemma OnlyNullIsRead(v: Value)
    requires ReadAppSpec(NO_APP_SPEC, v).Some? && !v.Obj?
    ensures v.Null?
  {
  }

  lemma ListsAreRead(v: Value)
    requires ReadAppSpec(NO_APP_SPEC, v).Some? && v.Obj?
    ensures var s := ReadAppSpec(NO_APP_SPEC, v).value;
      && Slice(v.members, "env", NO_ENV_VAR, ReadEnvVar) == Some(s.env)
      && Slice(v.members, "domains", NO_DOMAIN, ReadDomain) == Some(s.domains)
      && Slice(v.members, "volumes", NO_VOLUME, ReadVolume) == Some(s.volumes)
      && Slice(v.members, "imagePullSecrets", "", ReadStr) == Some(s.imagePullSecrets)
  {
    hide ReadSource, ReadRuntime, Slice, Field;
  }

  lemma AppSpecIsShaped(v: Value)
    requires ReadAppSpec(NO_APP_SPEC, v).Some?
    ensures Shaped(AppSpecShape, v) && (NoNullItems(AppSpecShape, v) <==> NoNullElement(v))
  {
    hide ReadAppSpec, ReadSource, ReadRuntime, Slice, AppSpecShape, SourceShape, RuntimeShape, EnvVarShape, DomainShape, VolumeShape,
         Shaped, ShapedItems, NoNullItems, NoNullIn, NoNullElement;
    if !v.Obj? {
      OnlyNullIsRead(v);
      NullIsShaped();
    } else {
      ListsAreRead(v);
      ChildrenAreShaped(v);
      EveryItemIsShaped();
      SliceIsShaped(v, "env", NO_ENV_VAR, ReadEnvVar, EnvVarShape);
      SliceIsShaped(v, "domains", NO_DOMAIN, ReadDomain, DomainShape);
      SliceIsShaped(v, "volumes", NO_VOLUME, ReadVolume, VolumeShape);
      ShapedFromParts(v);
      NoNullFromParts(v);
    }
  }

  lemma NullIsShaped()
    ensures Shaped(AppSpecShape, Null) && NoNullItems(AppSpecShape, Null) && NoNullElement(Null)
  {
  }

  lemma ShapedFromParts(v: Value)
    requires v.Obj? && Shaped(SourceShape, v.At("source")) && Shaped(RuntimeShape, v.At("runtime"))
    requires v.At("env").Null? || ShapedItems(EnvVarShape, v.At("env"))
    requires v.At("domains").Null? || ShapedItems(DomainShape, v.At("domains"))
    requires v.At("volumes").Null? || ShapedItems(VolumeShape, v.At("volumes"))
    ensures Shaped(AppSpecShape, v)
  {
    hide ShapedItems, SourceShape, RuntimeShape, EnvVarShape, DomainShape, VolumeShape;
  }

  lemma NoNullFromParts(v: Value)
    requires v.Obj? && NoNullItems(SourceShape, v.At("source")) && NoNullItems(RuntimeShape, v.At("runtime"))
    requires v.At("env").Arr? ==> (NoNullIn(EnvVarShape, v.At("env")) <==> Null !in v.At("env").items)
    requires v.At("domains").Arr? ==> (NoNullIn(DomainShape, v.At("domains")) <==> Null !in v.At("domains").items)
    requires v.At("volumes").Arr? ==> (NoNullIn(VolumeShape, v.At("volumes")) <==> Null !in v.At("volumes").items)
    ensures NoNullItems(AppSpecShape, v) <==> NoNullElement(v)
  {
    hide NoNullIn, SourceShape, RuntimeShape, EnvVarShape, DomainShape, VolumeShape;
    assert forall k :: k in AppSpecShape.lists <==> k in SHAPED_LISTS;
  }

  lemma ChildrenAreShaped(v: Value)
    requires v.Obj? && ReadAppSpec(NO_APP_SPEC, v).Some?
    ensures Shaped(SourceShape, v.At("source")) && NoNullItems(SourceShape, v.At("source"))
    ensures Shaped(RuntimeShape, v.At("runtime")) && NoNullItems(RuntimeShape, v.At("runtime"))
  {
    hide Slice, Shaped, NoNullItems;
    SourceIsShaped(v.At("source"));
    RuntimeIsShaped(v.At("runtime"));
  }

  /** For every document that is accepted: all required members are there, down to every element, if
  and only if the document is not null and has no null element in a list of structs. */
  lemma AcceptedIsPresent(v: Value)
    requires DecodeAppSpec(v).Ok?
    ensures Present(AppSpecShape, v) <==> !v.Null? && NoNullElement(v)
  {
    hide Check, ReadAppSpec, Present, Shaped, Whole, NoNullItems, NoNullElement, AppSpecShape;
    WholeIsAccepted(AppSpecShape, v);
    AppSpecIsShaped(v);
    WholeIsPresent(AppSpecShape, v);
  }

  const EMPTY_APP: Members := map["source" := Obj(map[]), "runtime" := Obj(map["processes" := Obj(map[])])]
  const NO_PROCESSES := NO_APP_SPEC.(runtime := NO_RUNTIME.(processes := Some(map[])))

  /** Only the domains of the empty app can lack something. */
  lemma EmptyAppLacks(domains: Value, p: Place)
    requires Lacks(AppSpecShape, Obj(EMPTY_APP["domains" := domains]), p)
    ensures p.Of? && p.list == "domains" && domains.Arr? && p.index < |domains.items|
    ensures Lacks(DomainShape, domains.items[p.index], p.rest)
  {
    var v := Obj(EMPTY_APP["domains" := domains]);
    EmptyPartsAreWhole();
    assert v.At("env") == Null && v.At("volumes") == Null && v.At("domains") == domains;
    assert v.At("source") == EMPTY_APP["source"] && v.At("runtime") == EMPTY_APP["runtime"];
  }

  lemma EmptyPartsAreWhole()
    ensures Whole(SourceShape, EMPTY_APP["source"]) && Whole(RuntimeShape, EMPTY_APP["runtime"])
  {
    NoObjectLacksNothing(GitSourceShape, Null);
    NoObjectLacksNothing(HealthCheckShape, Null);
    WholeFromParts(SourceShape, EMPTY_APP["source"]);
    WholeFromParts(RuntimeShape, EMPTY_APP["runtime"]);
  }

  lemma EmptyAppReads(items: seq<Value>, domains: seq<Domain>)
    requires ReadItems(items, NO_DOMAIN, ReadDomain) == Some(domains)
    ensures ReadAppSpec(NO_APP_SPEC, Obj(EMPTY_APP["domains" := Arr(items)])) == Some(NO_PROCESSES.(domains := Some(domains)))
  {
    hide ReadItems, ReadDomain;
    assert ReadSource(NO_SOURCE, Obj(map[])) == Some(NO_SOURCE);
    var o := map["processes" := Obj(map[])];
    assert Table(o, "processes", NO_PROCESS, ReadProcess).value.value == map[];
    assert ReadRuntime(NO_RUNTIME, Obj(o)) == Some(NO_PROCESSES.runtime);
  }

  /** The specs that are not a fixed point lose an empty list: here is one. */
  lemma EmptyListIsForgotten()
    ensures var withList := NO_PROCESSES.(domains := Some([]));
      && DecodeAppSpec(Obj(EMPTY_APP["domains" := Arr([])])) == Ok(withList)
      && WriteAppSpec(withList).Some? && DecodeAppSpec(WriteAppSpec(withList).value) == Ok(NO_PROCESSES)
  {
    hide Check, WriteAppSpec, ReadAppSpec;
    var v := Obj(EMPTY_APP["domains" := Arr([])]);
    forall p: Place ensures !Lacks(AppSpecShape, v, p) {
      if Lacks(AppSpecShape, v, p) {
        EmptyAppLacks(Arr([]), p);
      }
    }
    WholeIsAccepted(AppSpecShape, v);
    EmptyAppReads([], []);
    DecodeOfWrite(NO_PROCESSES.(domains := Some([])));
    assert NormTable(map[], NormProcess) == map[];
  }

  /** Null is accepted, although it has no processes at all; it reads back with an empty map of them. */
  lemma NullIsAccepted()
    ensures DecodeAppSpec(Null) == Ok(NO_APP_SPEC)
    ensures WriteAppSpec(NO_APP_SPEC).Some? && DecodeAppSpec(WriteAppSpec(NO_APP_SPEC).value) == Ok(NO_PROCESSES)
  {
    hide Check, WriteAppSpec;
    NoObjectLacksNothing(AppSpecShape, Null);
    WholeIsAccepted(AppSpecShape, Null);
    DecodeOfWrite(NO_APP_SPEC);
    assert NormTable(map[], NormProcess) == map[];
  }

  /** A null element passes the check for required members, though it has none of them. */
  lemma NullElementPasses()
    ensures DecodeAppSpec(Obj(EMPTY_APP["domains" := Arr([Null])])) == Ok(NO_PROCESSES.(domains := Some([Domain("", DEFAULT_TLS)])))
  {
    hide Check, ReadAppSpec;
    var v := Obj(EMPTY_APP["domains" := Arr([Null])]);
    forall p: Place ensures !Lacks(AppSpecShape, v, p) {
      if Lacks(AppSpecShape, v, p) {
        EmptyAppLacks(Arr([Null]), p);
      }
    }
    WholeIsAccepted(AppSpecShape, v);
    ReadOneItem(Null, NO_DOMAIN, ReadDomain);
    EmptyAppReads([Null], [Domain("", DEFAULT_TLS)]);
  }

  /** An empty one does not. */
  lemma EmptyElementFails()
    ensures DecodeAppSpec(Obj(EMPTY_APP["domains" := Arr([Obj(map[])])])) == Err(MissingField("host"))
  {
    hide Check, ReadAppSpec;
    var w := Obj(EMPTY_APP["domains" := Arr([Obj(map[])])]);
    CheckFindsFirst(AppSpecShape, w);
    assert Lacks(AppSpecShape, w, Of("domains", 0, Own("host")));
    var p: Place :| FirstPlace(AppSpecShape, w, p) && p.Name() == Check(AppSpecShape, w).value;
    EmptyAppLacks(Arr([Obj(map[])]), p);
  }
}
