/** What a decoded app specification says, member by member of its document: what is there is taken as it
is, and what is not, or is null, is the documented default (packages/api/v1alpha1/app.go). */
module AppSpecValues {
  import opened Wrappers
  import opened Values
  import opened Decimal
  import opened Codec
  import opened Strict
  import opened AppSpec
  import AppSpecTypes
  import JsonRoundTrip
  import WireReads

  // ---------- Members ----------

  /** The member of an object, or null. */
  function Of(v: Value, m: string): Value {
    if v.Obj? && m in v.members then v.members[m] else Null
  }

  predicate IsText(v: Value, default: string, s: string) {
    s == if v.Str? then v.s else default
  }

  predicate IsOptText(v: Value, s: Option<string>) {
    s == if v.Str? then Some(v.s) else None
  }

  predicate IsNumber(v: Value, default: int, n: int) {
    if v.Num? then AppSpecTypes.Literal(v, -1, n) else n == default
  }

  predicate IsOptNumber(v: Value, n: Option<int>) {
    if v.Num? then n.Some? && AppSpecTypes.Literal(v, -1, n.value) else n.None?
  }

  ghost predicate IsOpt<T>(v: Value, x: Option<T>, rel: (Value, T) -> bool) {
    if v.Obj? then x.Some? && rel(v, x.value) else x.None?
  }

  ghost predicate IsList<T>(v: Value, xs: Option<seq<T>>, rel: (Value, T) -> bool) {
    if v.Arr? then xs.Some? && |xs.value| == |v.items| && forall i :: 0 <= i < |v.items| ==> rel(v.items[i], xs.value[i])
    else xs.None?
  }

  ghost predicate IsTable<T>(v: Value, xs: Option<map<string, T>>, rel: (Value, T) -> bool) {
    if v.Obj? then xs.Some? && xs.value.Keys == v.members.Keys && forall k :: k in v.members ==> rel(v.members[k], xs.value[k])
    else xs.None?
  }

  ghost predicate IsItem(v: Value, s: string) {
    IsText(v, "", s)
  }

  // ---------- Structs ----------

  ghost predicate IsKeyRef(v: Value, x: KeyRef) {
    && IsText(Of(v, "name"), "", x.name)
    && IsText(Of(v, "key"), "", x.key)
  }

  ghost predicate IsEnvVar(v: Value, x: EnvVar) {
    && IsText(Of(v, "name"), "", x.name)
    && IsOptText(Of(v, "value"), x.value)
    && IsOpt(Of(v, "fromSecret"), x.fromSecret, IsKeyRef)
    && IsOpt(Of(v, "fromService"), x.fromService, IsKeyRef)
  }

  ghost predicate IsDomain(v: Value, x: Domain) {
    && IsText(Of(v, "host"), "", x.host)
    && IsText(Of(v, "tls"), "auto", x.tls)
  }

  ghost predicate IsVolume(v: Value, x: Volume) {
    && IsText(Of(v, "name"), "", x.name)
    && IsText(Of(v, "mountPath"), "", x.mountPath)
    && IsText(Of(v, "size"), "1Gi", x.size)
    && IsOptText(Of(v, "storageClass"), x.storageClass)
  }

  ghost predicate IsBuild(v: Value, x: Build) {
    && IsText(Of(v, "strategy"), "auto", x.strategy)
    && IsOptText(Of(v, "dockerfile"), x.dockerfile)
  }

  ghost predicate IsGitSource(v: Value, x: GitSource) {
    && IsText(Of(v, "repo"), "", x.repo)
    && IsText(Of(v, "branch"), "main", x.branch)
    && IsText(Of(v, "path"), "", x.path)
    && IsBuild(Of(v, "build"), x.build)
  }

  ghost predicate IsSource(v: Value, x: Source) {
    && IsOptText(Of(v, "image"), x.image)
    && IsOpt(Of(v, "git"), x.git, IsGitSource)
  }

  ghost predicate IsReplicas(v: Value, x: Replicas) {
    && IsNumber(Of(v, "min"), 1, x.min)
    && IsNumber(Of(v, "max"), 1, x.max)
  }

  ghost predicate IsIdle(v: Value, x: Idle) {
    && IsText(Of(v, "mode"), "off", x.mode)
    && IsText(Of(v, "after"), "15m", x.after)
  }

  ghost predicate IsProcess(v: Value, x: Process) {
    && IsList(Of(v, "command"), x.command, IsItem)
    && IsOptNumber(Of(v, "port"), x.port)
    && IsText(Of(v, "size"), "small", x.size)
    && IsReplicas(Of(v, "replicas"), x.replicas)
    && IsOpt(Of(v, "idle"), x.idle, IsIdle)
    && IsOptText(Of(v, "schedule"), x.schedule)
    && IsOptText(Of(v, "timeZone"), x.timeZone)
    && IsText(Of(v, "protocol"), "http", x.protocol)
  }

  ghost predicate IsHealthCheck(v: Value, x: HealthCheck) {
    && IsText(Of(v, "path"), "", x.path)
    && IsOptNumber(Of(v, "port"), x.port)
  }

  ghost predicate IsRuntime(v: Value, x: Runtime) {
    && IsTable(Of(v, "processes"), x.processes, IsProcess)
    && IsOpt(Of(v, "healthCheck"), x.healthCheck, IsHealthCheck)
    && IsOptNumber(Of(v, "fsGroup"), x.fsGroup)
  }

  ghost predicate IsAppSpec(v: Value, x: AppSpec) {
    && IsSource(Of(v, "source"), x.source)
    && IsRuntime(Of(v, "runtime"), x.runtime)
    && IsList(Of(v, "env"), x.env, IsEnvVar)
    && IsList(Of(v, "domains"), x.domains, IsDomain)
    && IsList(Of(v, "volumes"), x.volumes, IsVolume)
    && IsList(Of(v, "imagePullSecrets"), x.imagePullSecrets, IsItem)
  }

  // ---------- What is read is what is there ----------

  lemma UnsignedIs(raw: string, limit: nat, n: nat)
    requires JsonRoundTrip.IsNumber(raw) && ParseUint(raw, limit) == Some(n)
    ensures AppSpecTypes.Literal(Num(raw), -1, n)
  {
    WireReads.UnsignedLiteral(raw, limit, n);
  }

  lemma SignedIs(raw: string, n: int)
    requires JsonRoundTrip.IsNumber(raw) && ParseInt(raw, TWO_TO_THE_63) == Some(n)
    ensures AppSpecTypes.Literal(Num(raw), -1, n)
  {
    WireReads.SignedLiteral(raw, n);
  }

  /** The literals of a member. */
  predicate LiteralsOf(o: Members) {
    forall m :: m in o ==> AppSpecTypes.Literals(o[m])
  }

  lemma TextFieldIs(o: Members, m: string, was: string, s: string)
    requires Field(o, m, was, ReadStr) == Some(s)
    ensures IsText(Of(Obj(o), m), was, s)
  {
  }

  lemma EnumFieldIs(o: Members, m: string, was: string, valid: seq<string>, read: (string, Value) -> Option<string>, s: string)
    requires (forall x, v :: read(x, v) == ReadEnum(v, valid)) && "" !in valid && Field(o, m, was, read) == Some(s)
    ensures IsText(Of(Obj(o), m), was, s)
  {
  }

  lemma TextPointerIs(o: Members, m: string, s: Option<string>)
    requires Pointer(o, m, "", ReadStr) == Some(s)
    ensures IsOptText(Of(Obj(o), m), s)
  {
  }

  lemma U32FieldIs(o: Members, m: string, was: u32, n: u32)
    requires LiteralsOf(o) && Field(o, m, was, ReadU32) == Some(n)
    ensures IsNumber(Of(Obj(o), m), was, n)
  {
    hide ParseUint, JsonRoundTrip.IsNumber, AppSpecTypes.Literal;
    if m in o && o[m].Num? {
      UnsignedIs(o[m].raw, TWO_TO_THE_32, n);
    }
  }

  lemma U16PointerIs(o: Members, m: string, n: Option<u16>)
    requires LiteralsOf(o) && Pointer(o, m, 0, ReadU16) == Some(n)
    ensures IsOptNumber(Of(Obj(o), m), n)
  {
    hide ParseUint, JsonRoundTrip.IsNumber, AppSpecTypes.Literal;
    if m in o && o[m].Num? {
      UnsignedIs(o[m].raw, TWO_TO_THE_16, n.value);
    }
  }

  lemma I64PointerIs(o: Members, m: string, n: Option<i64>)
    requires LiteralsOf(o) && Pointer(o, m, 0, ReadI64) == Some(n)
    ensures IsOptNumber(Of(Obj(o), m), n)
  {
    hide ParseInt, JsonRoundTrip.IsNumber, AppSpecTypes.Literal;
    if m in o && o[m].Num? {
      SignedIs(o[m].raw, n.value);
    }
  }

  /** A pointer to a struct: only an object is read as one. */
  lemma PointerIs<T>(o: Members, m: string, zero: T, read: (T, Value) -> Option<T>, x: Option<T>, rel: (Value, T) -> bool)
    requires Pointer(o, m, zero, read) == Some(x)
    requires m in o && !o[m].Null? ==> o[m].Obj? && (x.Some? ==> rel(o[m], x.value))
    ensures IsOpt(Of(Obj(o), m), x, rel)
  {
  }

  lemma {:induction false} ItemsAre<T>(items: seq<Value>, zero: T, read: (T, Value) -> Option<T>, xs: seq<T>)
    requires ReadItems(items, zero, read) == Some(xs)
    ensures |xs| == |items| && forall i :: 0 <= i < |items| ==> read(zero, items[i]) == Some(xs[i])
  {
    if items != [] {
      ItemsAre(items[1..], zero, read, xs[1..]);
      assert xs == [xs[0]] + xs[1..];
    }
  }

  lemma SliceIs<T>(o: Members, m: string, zero: T, read: (T, Value) -> Option<T>, xs: Option<seq<T>>, rel: (Value, T) -> bool)
    requires Slice(o, m, zero, read) == Some(xs)
    requires m in o && o[m].Arr? ==> forall i, x | 0 <= i < |o[m].items| && read(zero, o[m].items[i]) == Some(x) :: rel(o[m].items[i], x)
    ensures IsList(Of(Obj(o), m), xs, rel)
  {
    if m in o && o[m].Arr? {
      ItemsAre(o[m].items, zero, read, xs.value);
    }
  }

  lemma TableIs<T>(o: Members, m: string, zero: T, read: (T, Value) -> Option<T>, xs: Option<map<string, T>>, rel: (Value, T) -> bool)
    requires Table(o, m, zero, read) == Some(xs)
    requires m in o && o[m].Obj? ==> forall k, x | k in o[m].members && read(zero, o[m].members[k]) == Some(x) :: rel(o[m].members[k], x)
    ensures IsTable(Of(Obj(o), m), xs, rel)
  {
  }

  lemma KeyRefIs(v: Value, x: KeyRef)
    requires AppSpecTypes.Literals(v) && ReadKeyRef(NO_KEY_REF, v) == Some(x)
    ensures IsKeyRef(v, x)
  {
    if v.Obj? {
      var o := v.members;
      assert LiteralsOf(o);
      hide ReadStr, Field, Pointer, Slice, Table, AppSpecTypes.Literals, IsText, IsOptText, IsNumber, IsOptNumber, IsOpt, IsList, IsTable, LiteralsOf, Of;
      assert v == Obj(o);
      TextFieldIs(o, "name", NO_KEY_REF.name, x.name);
      TextFieldIs(o, "key", NO_KEY_REF.key, x.key);
    }
  }

  lemma EnvVarIs(v: Value, x: EnvVar)
    requires AppSpecTypes.Literals(v) && ReadEnvVar(NO_ENV_VAR, v) == Some(x)
    ensures IsEnvVar(v, x)
  {
    if v.Obj? {
      var o := v.members;
      assert LiteralsOf(o);
      hide ReadKeyRef, ReadStr, Field, Pointer, Slice, Table, AppSpecTypes.Literals, IsText, IsOptText, IsNumber, IsOptNumber, IsOpt, IsList, IsTable, LiteralsOf, Of, IsKeyRef;
      assert v == Obj(o);
      TextFieldIs(o, "name", NO_ENV_VAR.name, x.name);
      TextPointerIs(o, "value", x.value);
      EnvVarFromSecretIs(o, x.fromSecret);
      EnvVarFromServiceIs(o, x.fromService);
    }
  }

  lemma EnvVarFromSecretIs(o: Members, x: Option<KeyRef>)
    requires LiteralsOf(o) && Pointer(o, "fromSecret", NO_KEY_REF, ReadKeyRef) == Some(x)
    ensures IsOpt(Of(Obj(o), "fromSecret"), x, IsKeyRef)
  {
    hide AppSpecTypes.Literals, IsKeyRef;
    if "fromSecret" in o && !o["fromSecret"].Null? {
      KeyRefIs(o["fromSecret"], x.value);
    }
    PointerIs(o, "fromSecret", NO_KEY_REF, ReadKeyRef, x, IsKeyRef);
  }

  lemma EnvVarFromServiceIs(o: Members, x: Option<KeyRef>)
    requires LiteralsOf(o) && Pointer(o, "fromService", NO_KEY_REF, ReadKeyRef) == Some(x)
    ensures IsOpt(Of(Obj(o), "fromService"), x, IsKeyRef)
  {
    hide AppSpecTypes.Literals, IsKeyRef;
    if "fromService" in o && !o["fromService"].Null? {
      KeyRefIs(o["fromService"], x.value);
    }
    PointerIs(o, "fromService", NO_KEY_REF, ReadKeyRef, x, IsKeyRef);
  }

  lemma DomainIs(was: Domain, v: Value, x: Domain)
    requires AppSpecTypes.Literals(v) && ReadDomain(was, v) == Some(x)
    ensures IsDomain(v, x)
  {
    if v.Obj? {
      var o := v.members;
      assert LiteralsOf(o);
      hide ReadStr, Field, Pointer, Slice, Table, AppSpecTypes.Literals, IsText, IsOptText, IsNumber, IsOptNumber, IsOpt, IsList, IsTable, LiteralsOf, Of;
      assert v == Obj(o);
      TextFieldIs(o, "host", "", x.host);
      TextFieldIs(o, "tls", DEFAULT_TLS, x.tls);
    }
  }

  lemma VolumeIs(was: Volume, v: Value, x: Volume)
    requires AppSpecTypes.Literals(v) && ReadVolume(was, v) == Some(x)
    ensures IsVolume(v, x)
  {
    if v.Obj? {
      var o := v.members;
      assert LiteralsOf(o);
      hide ReadStr, Field, Pointer, Slice, Table, AppSpecTypes.Literals, IsText, IsOptText, IsNumber, IsOptNumber, IsOpt, IsList, IsTable, LiteralsOf, Of;
      assert v == Obj(o);
      TextFieldIs(o, "name", "", x.name);
      TextFieldIs(o, "mountPath", "", x.mountPath);
      TextFieldIs(o, "size", DEFAULT_VOLUME_SIZE, x.size);
      TextPointerIs(o, "storageClass", x.storageClass);
    }
  }

  lemma BuildIs(was: Build, v: Value, x: Build)
    requires AppSpecTypes.Literals(v) && ReadBuild(was, v) == Some(x)
    ensures IsBuild(v, x)
  {
    if v.Obj? {
      var o := v.members;
      assert LiteralsOf(o);
      hide ReadStr, ReadStrategy, Field, Pointer, Slice, Table, AppSpecTypes.Literals, IsText, IsOptText, IsNumber, IsOptNumber, IsOpt, IsList, IsTable, LiteralsOf, Of;
      assert v == Obj(o);
      BuildEnum(o, x.strategy);
      TextPointerIs(o, "dockerfile", x.dockerfile);
    }
  }

  lemma BuildEnum(o: Members, s: string)
    requires Field(o, "strategy", "auto", ReadStrategy) == Some(s)
    ensures IsText(Of(Obj(o), "strategy"), "auto", s)
  {
    EnumFieldIs(o, "strategy", "auto", BUILD_STRATEGIES, ReadStrategy, s);
  }

  lemma GitSourceIs(was: GitSource, v: Value, x: GitSource)
    requires AppSpecTypes.Literals(v) && ReadGitSource(was, v) == Some(x)
    ensures IsGitSource(v, x)
  {
    if v.Obj? {
      var o := v.members;
      assert LiteralsOf(o);
      hide ReadBuild, ReadStr, Field, Pointer, Slice, Table, AppSpecTypes.Literals, IsText, IsOptText, IsNumber, IsOptNumber, IsOpt, IsList, IsTable, LiteralsOf, Of, IsBuild;
      assert v == Obj(o);
      TextFieldIs(o, "repo", "", x.repo);
      TextFieldIs(o, "branch", DEFAULT_BRANCH, x.branch);
      TextFieldIs(o, "path", "", x.path);
      GitSourceBuildIs(o, x.build);
    }
  }

  lemma GitSourceBuildIs(o: Members, x: Build)
    requires LiteralsOf(o) && Field(o, "build", Build("auto", None), ReadBuild) == Some(x)
    ensures IsBuild(Of(Obj(o), "build"), x)
  {
    if "build" in o {
      hide AppSpecTypes.Literals, IsBuild;
      BuildIs(Build("auto", None), o["build"], x);
    }
  }

  lemma SourceIs(v: Value, x: Source)
    requires AppSpecTypes.Literals(v) && ReadSource(NO_SOURCE, v) == Some(x)
    ensures IsSource(v, x)
  {
    if v.Obj? {
      var o := v.members;
      assert LiteralsOf(o);
      hide ReadGitSource, ReadStr, Field, Pointer, Slice, Table, AppSpecTypes.Literals, IsText, IsOptText, IsNumber, IsOptNumber, IsOpt, IsList, IsTable, LiteralsOf, Of, IsGitSource;
      assert v == Obj(o);
      TextPointerIs(o, "image", x.image);
      SourceGitIs(o, x.git);
    }
  }

  lemma SourceGitIs(o: Members, x: Option<GitSource>)
    requires LiteralsOf(o) && Pointer(o, "git", NO_GIT_SOURCE, ReadGitSource) == Some(x)
    ensures IsOpt(Of(Obj(o), "git"), x, IsGitSource)
  {
    hide AppSpecTypes.Literals, IsGitSource;
    if "git" in o && !o["git"].Null? {
      GitSourceIs(NO_GIT_SOURCE, o["git"], x.value);
    }
    PointerIs(o, "git", NO_GIT_SOURCE, ReadGitSource, x, IsGitSource);
  }

  lemma ReplicasIs(was: Replicas, v: Value, x: Replicas)
    requires AppSpecTypes.Literals(v) && ReadReplicas(was, v) == Some(x)
    ensures IsReplicas(v, x)
  {
    if v.Obj? {
      var o := v.members;
      assert LiteralsOf(o);
      hide ReadU32, Field, Pointer, Slice, Table, AppSpecTypes.Literals, IsText, IsOptText, IsNumber, IsOptNumber, IsOpt, IsList, IsTable, LiteralsOf, Of;
      assert v == Obj(o);
      U32FieldIs(o, "min", 1, x.min);
      U32FieldIs(o, "max", 1, x.max);
    }
  }

  lemma IdleIs(was: Idle, v: Value, x: Idle)
    requires AppSpecTypes.Literals(v) && ReadIdle(was, v) == Some(x)
    ensures IsIdle(v, x)
  {
    if v.Obj? {
      var o := v.members;
      assert LiteralsOf(o);
      hide ReadMode, ReadStr, Field, Pointer, Slice, Table, AppSpecTypes.Literals, IsText, IsOptText, IsNumber, IsOptNumber, IsOpt, IsList, IsTable, LiteralsOf, Of;
      assert v == Obj(o);
      IdleEnum(o, x.mode);
      TextFieldIs(o, "after", DEFAULT_IDLE_AFTER, x.after);
    }
  }

  lemma IdleEnum(o: Members, s: string)
    requires Field(o, "mode", "off", ReadMode) == Some(s)
    ensures IsText(Of(Obj(o), "mode"), "off", s)
  {
    EnumFieldIs(o, "mode", "off", IDLE_MODES, ReadMode, s);
  }

  lemma ProcessIs(was: Process, v: Value, x: Process)
    requires AppSpecTypes.Literals(v) && ReadProcess(was, v) == Some(x)
    ensures IsProcess(v, x)
  {
    if v.Obj? {
      var o := v.members;
      assert LiteralsOf(o);
      hide ReadIdle, ReadProtocol, ReadReplicas, ReadStr, ReadU16, Field, Pointer, Slice, Table, AppSpecTypes.Literals, IsText, IsOptText, IsNumber, IsOptNumber, IsOpt, IsList, IsTable, LiteralsOf, Of, IsIdle, IsReplicas;
      assert v == Obj(o);
      ProcessCommandIs(o, x.command);
      U16PointerIs(o, "port", x.port);
      TextFieldIs(o, "size", DEFAULT_PROCESS_SIZE, x.size);
      ProcessReplicasIs(o, x.replicas);
      ProcessIdleIs(o, x.idle);
      TextPointerIs(o, "schedule", x.schedule);
      TextPointerIs(o, "timeZone", x.timeZone);
      ProcessEnum(o, x.protocol);
    }
  }

  lemma ProcessCommandIs(o: Members, xs: Option<seq<string>>)
    requires LiteralsOf(o) && Slice(o, "command", "", ReadStr) == Some(xs)
    ensures IsList(Of(Obj(o), "command"), xs, IsItem)
  {
    SliceIs(o, "command", "", ReadStr, xs, IsItem);
  }

  lemma ProcessReplicasIs(o: Members, x: Replicas)
    requires LiteralsOf(o) && Field(o, "replicas", Replicas(1, 1), ReadReplicas) == Some(x)
    ensures IsReplicas(Of(Obj(o), "replicas"), x)
  {
    if "replicas" in o {
      hide AppSpecTypes.Literals, IsReplicas;
      ReplicasIs(Replicas(1, 1), o["replicas"], x);
    }
  }

  lemma ProcessIdleIs(o: Members, x: Option<Idle>)
    requires LiteralsOf(o) && Pointer(o, "idle", NO_IDLE, ReadIdle) == Some(x)
    ensures IsOpt(Of(Obj(o), "idle"), x, IsIdle)
  {
    hide AppSpecTypes.Literals, IsIdle;
    if "idle" in o && !o["idle"].Null? {
      IdleIs(NO_IDLE, o["idle"], x.value);
    }
    PointerIs(o, "idle", NO_IDLE, ReadIdle, x, IsIdle);
  }

  lemma ProcessEnum(o: Members, s: string)
    requires Field(o, "protocol", "http", ReadProtocol) == Some(s)
    ensures IsText(Of(Obj(o), "protocol"), "http", s)
  {
    EnumFieldIs(o, "protocol", "http", PROTOCOLS, ReadProtocol, s);
  }

  lemma HealthCheckIs(v: Value, x: HealthCheck)
    requires AppSpecTypes.Literals(v) && ReadHealthCheck(NO_HEALTH_CHECK, v) == Some(x)
    ensures IsHealthCheck(v, x)
  {
    if v.Obj? {
      var o := v.members;
      assert LiteralsOf(o);
      hide ReadStr, ReadU16, Field, Pointer, Slice, Table, AppSpecTypes.Literals, IsText, IsOptText, IsNumber, IsOptNumber, IsOpt, IsList, IsTable, LiteralsOf, Of;
      assert v == Obj(o);
      TextFieldIs(o, "path", NO_HEALTH_CHECK.path, x.path);
      U16PointerIs(o, "port", x.port);
    }
  }

  lemma RuntimeIs(v: Value, x: Runtime)
    requires AppSpecTypes.Literals(v) && ReadRuntime(NO_RUNTIME, v) == Some(x)
    ensures IsRuntime(v, x)
  {
    if v.Obj? {
      var o := v.members;
      assert LiteralsOf(o);
      hide ReadHealthCheck, ReadI64, ReadProcess, Field, Pointer, Slice, Table, AppSpecTypes.Literals, IsText, IsOptText, IsNumber, IsOptNumber, IsOpt, IsList, IsTable, LiteralsOf, Of, IsHealthCheck, IsProcess;
      assert v == Obj(o);
      RuntimeProcessesIs(o, x.processes);
      RuntimeHealthCheckIs(o, x.healthCheck);
      I64PointerIs(o, "fsGroup", x.fsGroup);
    }
  }

  lemma RuntimeProcessesIs(o: Members, xs: Option<map<string, Process>>)
    requires LiteralsOf(o) && Table(o, "processes", NO_PROCESS, ReadProcess) == Some(xs)
    ensures IsTable(Of(Obj(o), "processes"), xs, IsProcess)
  {
    hide IsProcess, ReadProcess;
    if "processes" in o && o["processes"].Obj? {
      forall k, x | k in o["processes"].members && ReadProcess(NO_PROCESS, o["processes"].members[k]) == Some(x)
        ensures IsProcess(o["processes"].members[k], x)
      {
        ProcessIs(NO_PROCESS, o["processes"].members[k], x);
      }
    }
    TableIs(o, "processes", NO_PROCESS, ReadProcess, xs, IsProcess);
  }

  lemma RuntimeHealthCheckIs(o: Members, x: Option<HealthCheck>)
    requires LiteralsOf(o) && Pointer(o, "healthCheck", NO_HEALTH_CHECK, ReadHealthCheck) == Some(x)
    ensures IsOpt(Of(Obj(o), "healthCheck"), x, IsHealthCheck)
  {
    hide AppSpecTypes.Literals, IsHealthCheck;
    if "healthCheck" in o && !o["healthCheck"].Null? {
      HealthCheckIs(o["healthCheck"], x.value);
    }
    PointerIs(o, "healthCheck", NO_HEALTH_CHECK, ReadHealthCheck, x, IsHealthCheck);
  }

  lemma AppSpecIs(v: Value, x: AppSpec)
    requires AppSpecTypes.Literals(v) && ReadAppSpec(NO_APP_SPEC, v) == Some(x)
    ensures IsAppSpec(v, x)
  {
    if v.Obj? {
      var o := v.members;
      assert LiteralsOf(o);
      hide ReadDomain, ReadEnvVar, ReadRuntime, ReadSource, ReadStr, ReadVolume, Field, Pointer, Slice, Table, AppSpecTypes.Literals, IsText, IsOptText, IsNumber, IsOptNumber, IsOpt, IsList, IsTable, LiteralsOf, Of, IsDomain, IsEnvVar, IsRuntime, IsSource, IsVolume;
      assert v == Obj(o);
      AppSpecSourceIs(o, x.source);
      AppSpecRuntimeIs(o, x.runtime);
      AppSpecEnvIs(o, x.env);
      AppSpecDomainsIs(o, x.domains);
      AppSpecVolumesIs(o, x.volumes);
      AppSpecImagePullSecretsIs(o, x.imagePullSecrets);
    }
  }

  lemma AppSpecSourceIs(o: Members, x: Source)
    requires LiteralsOf(o) && Field(o, "source", NO_APP_SPEC.source, ReadSource) == Some(x)
    ensures IsSource(Of(Obj(o), "source"), x)
  {
    if "source" in o {
      hide AppSpecTypes.Literals, IsSource;
      SourceIs(o["source"], x);
    }
  }

  lemma AppSpecRuntimeIs(o: Members, x: Runtime)
    requires LiteralsOf(o) && Field(o, "runtime", NO_APP_SPEC.runtime, ReadRuntime) == Some(x)
    ensures IsRuntime(Of(Obj(o), "runtime"), x)
  {
    if "runtime" in o {
      hide AppSpecTypes.Literals, IsRuntime;
      RuntimeIs(o["runtime"], x);
    }
  }

  lemma AppSpecEnvIs(o: Members, xs: Option<seq<EnvVar>>)
    requires LiteralsOf(o) && Slice(o, "env", NO_ENV_VAR, ReadEnvVar) == Some(xs)
    ensures IsList(Of(Obj(o), "env"), xs, IsEnvVar)
  {
    hide IsEnvVar, ReadEnvVar;
    if "env" in o && o["env"].Arr? {
      forall i, x | 0 <= i < |o["env"].items| && ReadEnvVar(NO_ENV_VAR, o["env"].items[i]) == Some(x)
        ensures IsEnvVar(o["env"].items[i], x)
      {
        EnvVarIs(o["env"].items[i], x);
      }
    }
    SliceIs(o, "env", NO_ENV_VAR, ReadEnvVar, xs, IsEnvVar);
  }

  lemma AppSpecDomainsIs(o: Members, xs: Option<seq<Domain>>)
    requires LiteralsOf(o) && Slice(o, "domains", NO_DOMAIN, ReadDomain) == Some(xs)
    ensures IsList(Of(Obj(o), "domains"), xs, IsDomain)
  {
    hide IsDomain, ReadDomain;
    if "domains" in o && o["domains"].Arr? {
      forall i, x | 0 <= i < |o["domains"].items| && ReadDomain(NO_DOMAIN, o["domains"].items[i]) == Some(x)
        ensures IsDomain(o["domains"].items[i], x)
      {
        DomainIs(NO_DOMAIN, o["domains"].items[i], x);
      }
    }
    SliceIs(o, "domains", NO_DOMAIN, ReadDomain, xs, IsDomain);
  }

  lemma AppSpecVolumesIs(o: Members, xs: Option<seq<Volume>>)
    requires LiteralsOf(o) && Slice(o, "volumes", NO_VOLUME, ReadVolume) == Some(xs)
    ensures IsList(Of(Obj(o), "volumes"), xs, IsVolume)
  {
    hide IsVolume, ReadVolume;
    if "volumes" in o && o["volumes"].Arr? {
      forall i, x | 0 <= i < |o["volumes"].items| && ReadVolume(NO_VOLUME, o["volumes"].items[i]) == Some(x)
        ensures IsVolume(o["volumes"].items[i], x)
      {
        VolumeIs(NO_VOLUME, o["volumes"].items[i], x);
      }
    }
    SliceIs(o, "volumes", NO_VOLUME, ReadVolume, xs, IsVolume);
  }

  lemma AppSpecImagePullSecretsIs(o: Members, xs: Option<seq<string>>)
    requires LiteralsOf(o) && Slice(o, "imagePullSecrets", "", ReadStr) == Some(xs)
    ensures IsList(Of(Obj(o), "imagePullSecrets"), xs, IsItem)
  {
    SliceIs(o, "imagePullSecrets", "", ReadStr, xs, IsItem);
  }

  /** Every member of an accepted specification is what its document has there, or its default. */
  lemma DecodedIs(v: Value)
    requires AppSpecTypes.Literals(v) && DecodeAppSpec(v).Ok?
    ensures IsAppSpec(v, DecodeAppSpec(v).value)
  {
    hide Check, ReadAppSpec, IsAppSpec, AppSpecTypes.Literals;
    AppSpecIs(v, DecodeAppSpec(v).value);
  }
}
