/** Which documents are app specifications (packages/api/v1alpha1/app.go, strict.go): the JSON type of
every member and which ones are required, as a table, and that DecodeAppSpec takes exactly these. */
module AppSpecTypes {
  import opened Wrappers
  import opened Values
  import opened Decimal
  import opened Codec
  import opened Strict
  import opened AppSpec
  import JsonRoundTrip
  import WireReads

  // ---------- The table ----------

  datatype Type =
    | Text
    | Enum(names: set<string>)
    | Number(low: int, high: int)
    | ListOf(items: Type)
    | TableOf(values: Type)
    | Object(members: map<string, Entry>)

  /** A member of an object. */
  datatype Entry = Required(type_: Type) | Optional(type_: Type)

  const KEY_REF := Object(map["name" := Required(Text), "key" := Required(Text)])

  const ENV_VAR := Object(map[
    "name" := Required(Text), "value" := Optional(Text),
    "fromSecret" := Optional(KEY_REF), "fromService" := Optional(KEY_REF)])

  const DOMAIN := Object(map["host" := Required(Text), "tls" := Optional(Text)])

  const VOLUME := Object(map[
    "name" := Required(Text), "mountPath" := Required(Text), "size" := Optional(Text), "storageClass" := Optional(Text)])

  const BUILD := Object(map[
    "strategy" := Optional(Enum({"auto", "dockerfile", "railpack"})), "dockerfile" := Optional(Text)])

  const GIT_SOURCE := Object(map[
    "repo" := Required(Text), "branch" := Optional(Text), "path" := Optional(Text), "build" := Optional(BUILD)])

  const SOURCE := Object(map["image" := Optional(Text), "git" := Optional(GIT_SOURCE)])

  const REPLICAS := Object(map[
    "min" := Optional(Number(0, TWO_TO_THE_32)), "max" := Optional(Number(0, TWO_TO_THE_32))])

  const IDLE := Object(map["mode" := Optional(Enum({"off", "zero", "throttle"})), "after" := Optional(Text)])

  const PROCESS := Object(map[
    "command" := Optional(ListOf(Text)), "port" := Optional(Number(0, TWO_TO_THE_16)), "size" := Optional(Text),
    "replicas" := Optional(REPLICAS), "idle" := Optional(IDLE), "schedule" := Optional(Text),
    "timeZone" := Optional(Text), "protocol" := Optional(Enum({"http", "tcp"}))])

  const HEALTH_CHECK := Object(map["path" := Required(Text), "port" := Optional(Number(0, TWO_TO_THE_16))])

  const RUNTIME := Object(map[
    "processes" := Required(TableOf(PROCESS)), "healthCheck" := Optional(HEALTH_CHECK),
    "fsGroup" := Optional(Number(-TWO_TO_THE_63, TWO_TO_THE_63))])

  const APP_SPEC := Object(map[
    "source" := Required(SOURCE), "runtime" := Required(RUNTIME), "env" := Optional(ListOf(ENV_VAR)),
    "domains" := Optional(ListOf(DOMAIN)), "volumes" := Optional(ListOf(VOLUME)),
    "imagePullSecrets" := Optional(ListOf(Text))])

  /** The literal of a whole number; a zero with a sign is one where there are negative numbers. */
  predicate Literal(v: Value, low: int, n: int) {
    v == Num(FormatInt(n)) || (n == 0 && low < 0 && v == Num("-0"))
  }

  /** v is of the type t. A null stands for anything but an enum; with strict, an object has its required
  members, and no null there. */
  ghost predicate HasType(t: Type, v: Value, strict: bool)
    decreases t, 1
  {
    match t
    case Text => v.Null? || v.Str?
    case Enum(names) => v.Str? && v.s in names
    case Number(low, high) => v.Null? || exists n :: low <= n < high && Literal(v, low, n)
    case ListOf(items) => v.Null? || (v.Arr? && forall i :: 0 <= i < |v.items| ==> HasType(items, v.items[i], strict))
    case TableOf(values) => v.Null? || (v.Obj? && forall k :: k in v.members ==> HasType(values, v.members[k], strict))
    case Object(members) => v.Null? || (v.Obj? && forall m :: m in members ==> Fits(members[m], v, m, strict))
  }

  ghost predicate Fits(e: Entry, v: Value, m: string, strict: bool)
    requires v.Obj?
    decreases e, 0
  {
    if m !in v.members then strict ==> e.Optional?
    else (strict && v.members[m].Null? ==> e.Optional?) && HasType(e.type_, v.members[m], strict)
  }

  /** The number literals in the document are those of JSON. */
  predicate Literals(v: Value) {
    match v
    case Num(raw) => JsonRoundTrip.IsNumber(raw)
    case Arr(items) => forall i :: 0 <= i < |items| ==> Literals(items[i])
    case Obj(members) => forall k :: k in members ==> Literals(members[k])
    case _ => true
  }

  // ---------- The typed reading ----------

  lemma StrTyped(was: string, v: Value)
    ensures ReadStr(was, v).Some? <==> HasType(Text, v, false)
  {
  }

  lemma UnsignedTyped(v: Value, limit: nat)
    requires Literals(v)
    ensures (v.Null? || (v.Num? && ParseUint(v.raw, limit).Some?)) <==> HasType(Number(0, limit), v, false)
  {
    hide FormatInt, JsonRoundTrip.IsNumber;
    if v.Num? {
      forall n: nat ensures ParseUint(v.raw, limit) == Some(n) <==> n < limit && v.raw == FormatInt(n) {
        WireReads.UnsignedLiteral(v.raw, limit, n);
      }
      if ParseUint(v.raw, limit).Some? {
        assert Literal(v, 0, ParseUint(v.raw, limit).value);
      }
    }
  }

  lemma U16Typed(was: u16, v: Value)
    requires Literals(v)
    ensures ReadU16(was, v).Some? <==> HasType(Number(0, TWO_TO_THE_16), v, false)
  {
    hide HasType, ParseUint;
    UnsignedTyped(v, TWO_TO_THE_16);
  }

  lemma U32Typed(was: u32, v: Value)
    requires Literals(v)
    ensures ReadU32(was, v).Some? <==> HasType(Number(0, TWO_TO_THE_32), v, false)
  {
    hide HasType, ParseUint;
    UnsignedTyped(v, TWO_TO_THE_32);
  }

  lemma I64Typed(was: i64, v: Value)
    requires Literals(v)
    ensures ReadI64(was, v).Some? <==> HasType(Number(-TWO_TO_THE_63, TWO_TO_THE_63), v, false)
  {
    hide FormatInt, JsonRoundTrip.IsNumber, ParseInt;
    if v.Num? {
      if ParseInt(v.raw, TWO_TO_THE_63).Some? {
        WireReads.SignedLiteral(v.raw, ParseInt(v.raw, TWO_TO_THE_63).value);
        assert Literal(v, -TWO_TO_THE_63, ParseInt(v.raw, TWO_TO_THE_63).value);
      }
      if HasType(Number(-TWO_TO_THE_63, TWO_TO_THE_63), v, false) {
        var n :| -TWO_TO_THE_63 <= n < TWO_TO_THE_63 && Literal(v, -TWO_TO_THE_63, n);
        WireReads.SignedLiteral(v.raw, n);
      }
    }
  }

  lemma StrategyTyped(was: string, v: Value)
    ensures ReadStrategy(was, v).Some? <==> HasType(Enum({"auto", "dockerfile", "railpack"}), v, false)
  {
    EnumNames(v);
  }

  lemma ModeTyped(was: string, v: Value)
    ensures ReadMode(was, v).Some? <==> HasType(Enum({"off", "zero", "throttle"}), v, false)
  {
    EnumNames(v);
  }

  lemma ProtocolTyped(was: string, v: Value)
    ensures ReadProtocol(was, v).Some? <==> HasType(Enum({"http", "tcp"}), v, false)
  {
    EnumNames(v);
  }

  lemma EnumNames(v: Value)
    ensures "" !in BUILD_STRATEGIES && "" !in IDLE_MODES && "" !in PROTOCOLS
    ensures forall s :: s in BUILD_STRATEGIES <==> s in {"auto", "dockerfile", "railpack"}
    ensures forall s :: s in IDLE_MODES <==> s in {"off", "zero", "throttle"}
    ensures forall s :: s in PROTOCOLS <==> s in {"http", "tcp"}
  {
  }

  /** The member m, where it is there, is of the type t. */
  ghost predicate Holds(t: Type, o: Members, m: string) {
    m in o ==> HasType(t, o[m], false)
  }

  lemma FieldTyped<T>(t: Type, o: Members, m: string, was: T, read: (T, Value) -> Option<T>)
    requires m in o ==> (read(was, o[m]).Some? <==> HasType(t, o[m], false))
    ensures Field(o, m, was, read).Some? <==> Holds(t, o, m)
  {
    hide HasType;
  }

  lemma PointerTyped<T>(t: Type, o: Members, m: string, zero: T, read: (T, Value) -> Option<T>)
    requires !t.Enum?
    requires m in o ==> (read(zero, o[m]).Some? <==> HasType(t, o[m], false))
    ensures Pointer(o, m, zero, read).Some? <==> Holds(t, o, m)
  {
  }

  lemma NoObjectTyped(t: Type, v: Value)
    requires t.Object?
    ensures !v.Obj? ==> (HasType(t, v, false) <==> v.Null?)
  {
  }

  lemma TextField(o: Members, m: string, was: string)
    ensures Field(o, m, was, ReadStr).Some? <==> Holds(Text, o, m)
  {
    if m in o {
      StrTyped(was, o[m]);
    }
    FieldTyped(Text, o, m, was, ReadStr);
  }

  lemma TextPointer(o: Members, m: string)
    ensures Pointer(o, m, "", ReadStr).Some? <==> Holds(Text, o, m)
  {
    if m in o {
      StrTyped("", o[m]);
    }
    PointerTyped(Text, o, m, "", ReadStr);
  }

  lemma {:induction false} ItemsTyped<T>(t: Type, items: seq<Value>, zero: T, read: (T, Value) -> Option<T>)
    requires forall i :: 0 <= i < |items| ==> (read(zero, items[i]).Some? <==> HasType(t, items[i], false))
    ensures ReadItems(items, zero, read).Some? <==> forall i :: 0 <= i < |items| ==> HasType(t, items[i], false)
  {
    hide HasType;
    if items != [] {
      ItemsTyped(t, items[1..], zero, read);
      assert forall i | 0 < i < |items| :: items[i] == items[1..][i - 1];
    }
  }

  lemma SliceTyped<T>(t: Type, o: Members, m: string, zero: T, read: (T, Value) -> Option<T>)
    requires m in o && o[m].Arr? ==>
      forall i :: 0 <= i < |o[m].items| ==> (read(zero, o[m].items[i]).Some? <==> HasType(t, o[m].items[i], false))
    ensures Slice(o, m, zero, read).Some? <==> Holds(ListOf(t), o, m)
  {
    if m in o && o[m].Arr? {
      ItemsTyped(t, o[m].items, zero, read);
    }
  }

  lemma TableTyped<T>(t: Type, o: Members, m: string, zero: T, read: (T, Value) -> Option<T>)
    requires m in o && o[m].Obj? ==>
      forall k :: k in o[m].members ==> (read(zero, o[m].members[k]).Some? <==> HasType(t, o[m].members[k], false))
    ensures Table(o, m, zero, read).Some? <==> Holds(TableOf(t), o, m)
  {
  }

  lemma ObjectTyped(members: map<string, Entry>, v: Value)
    requires v.Obj?
    ensures HasType(Object(members), v, false) <==> forall m :: m in members ==> Holds(members[m].type_, v.members, m)
  {
    assert forall m | m in members :: Fits(members[m], v, m, false) <==> Holds(members[m].type_, v.members, m);
  }

  lemma KeyRefMembers(o: Members)
    ensures HasType(KEY_REF, Obj(o), false) <==>
      && Holds(Text, o, "name")
      && Holds(Text, o, "key")
  {
    hide HasType, Holds;
    ObjectTyped(KEY_REF.members, Obj(o));
    assert KEY_REF.members.Keys == {"name", "key"};
  }

  lemma KeyRefTyped(was: KeyRef, v: Value)
    requires Literals(v)
    ensures ReadKeyRef(was, v).Some? <==> HasType(KEY_REF, v, false)
  {
    NoObjectTyped(KEY_REF, v);
    hide HasType, Holds, Field, Pointer, Slice, Table, Literals, ReadStr, KEY_REF;
    if v.Obj? {
      var o := v.members;
      KeyRefMembers(o);
      TextField(o, "name", was.name);
      TextField(o, "key", was.key);
    }
  }

  lemma EnvVarMembers(o: Members)
    ensures HasType(ENV_VAR, Obj(o), false) <==>
      && Holds(Text, o, "name")
      && Holds(Text, o, "value")
      && Holds(KEY_REF, o, "fromSecret")
      && Holds(KEY_REF, o, "fromService")
  {
    hide HasType, Holds, KEY_REF;
    ObjectTyped(ENV_VAR.members, Obj(o));
    assert ENV_VAR.members.Keys == {"name", "value", "fromSecret", "fromService"};
  }

  lemma EnvVarFromSecret(o: Members)
    requires Literals(Obj(o))
    ensures Pointer(o, "fromSecret", NO_KEY_REF, ReadKeyRef).Some? <==> Holds(KEY_REF, o, "fromSecret")
  {
    hide HasType, ReadKeyRef;
    if "fromSecret" in o {
      KeyRefTyped(NO_KEY_REF, o["fromSecret"]);
    }
    PointerTyped(KEY_REF, o, "fromSecret", NO_KEY_REF, ReadKeyRef);
  }

  lemma EnvVarFromService(o: Members)
    requires Literals(Obj(o))
    ensures Pointer(o, "fromService", NO_KEY_REF, ReadKeyRef).Some? <==> Holds(KEY_REF, o, "fromService")
  {
    hide HasType, ReadKeyRef;
    if "fromService" in o {
      KeyRefTyped(NO_KEY_REF, o["fromService"]);
    }
    PointerTyped(KEY_REF, o, "fromService", NO_KEY_REF, ReadKeyRef);
  }

  lemma EnvVarTyped(was: EnvVar, v: Value)
    requires Literals(v)
    ensures ReadEnvVar(was, v).Some? <==> HasType(ENV_VAR, v, false)
  {
    NoObjectTyped(ENV_VAR, v);
    hide HasType, Holds, Field, Pointer, Slice, Table, Literals, ReadKeyRef, ReadStr, ENV_VAR, KEY_REF;
    if v.Obj? {
      var o := v.members;
      EnvVarMembers(o);
      TextField(o, "name", was.name);
      TextPointer(o, "value");
      EnvVarFromSecret(o);
      EnvVarFromService(o);
    }
  }

  lemma DomainMembers(o: Members)
    ensures HasType(DOMAIN, Obj(o), false) <==>
      && Holds(Text, o, "host")
      && Holds(Text, o, "tls")
  {
    hide HasType, Holds;
    ObjectTyped(DOMAIN.members, Obj(o));
    assert DOMAIN.members.Keys == {"host", "tls"};
  }

  lemma DomainTyped(was: Domain, v: Value)
    requires Literals(v)
    ensures ReadDomain(was, v).Some? <==> HasType(DOMAIN, v, false)
  {
    NoObjectTyped(DOMAIN, v);
    hide HasType, Holds, Field, Pointer, Slice, Table, Literals, ReadStr, DOMAIN;
    if v.Obj? {
      var o := v.members;
      DomainMembers(o);
      TextField(o, "host", "");
      TextField(o, "tls", DEFAULT_TLS);
    }
  }

  lemma VolumeMembers(o: Members)
    ensures HasType(VOLUME, Obj(o), false) <==>
      && Holds(Text, o, "name")
      && Holds(Text, o, "mountPath")
      && Holds(Text, o, "size")
      && Holds(Text, o, "storageClass")
  {
    hide HasType, Holds;
    ObjectTyped(VOLUME.members, Obj(o));
    assert VOLUME.members.Keys == {"name", "mountPath", "size", "storageClass"};
  }

  lemma VolumeTyped(was: Volume, v: Value)
    requires Literals(v)
    ensures ReadVolume(was, v).Some? <==> HasType(VOLUME, v, false)
  {
    NoObjectTyped(VOLUME, v);
    hide HasType, Holds, Field, Pointer, Slice, Table, Literals, ReadStr, VOLUME;
    if v.Obj? {
      var o := v.members;
      VolumeMembers(o);
      TextField(o, "name", "");
      TextField(o, "mountPath", "");
      TextField(o, "size", DEFAULT_VOLUME_SIZE);
      TextPointer(o, "storageClass");
    }
  }

  lemma BuildMembers(o: Members)
    ensures HasType(BUILD, Obj(o), false) <==>
      && Holds(Enum({"auto", "dockerfile", "railpack"}), o, "strategy")
      && Holds(Text, o, "dockerfile")
  {
    hide HasType, Holds;
    ObjectTyped(BUILD.members, Obj(o));
    assert BUILD.members.Keys == {"strategy", "dockerfile"};
  }

  lemma BuildStrategy(o: Members)
    requires Literals(Obj(o))
    ensures Field(o, "strategy", "auto", ReadStrategy).Some? <==> Holds(Enum({"auto", "dockerfile", "railpack"}), o, "strategy")
  {
    hide HasType, ReadStrategy;
    if "strategy" in o {
      StrategyTyped("auto", o["strategy"]);
    }
    FieldTyped(Enum({"auto", "dockerfile", "railpack"}), o, "strategy", "auto", ReadStrategy);
  }

  lemma BuildTyped(was: Build, v: Value)
    requires Literals(v)
    ensures ReadBuild(was, v).Some? <==> HasType(BUILD, v, false)
  {
    NoObjectTyped(BUILD, v);
    hide HasType, Holds, Field, Pointer, Slice, Table, Literals, ReadStr, ReadStrategy, BUILD;
    if v.Obj? {
      var o := v.members;
      BuildMembers(o);
      BuildStrategy(o);
      TextPointer(o, "dockerfile");
    }
  }

  lemma GitSourceMembers(o: Members)
    ensures HasType(GIT_SOURCE, Obj(o), false) <==>
      && Holds(Text, o, "repo")
      && Holds(Text, o, "branch")
      && Holds(Text, o, "path")
      && Holds(BUILD, o, "build")
  {
    hide HasType, Holds, BUILD;
    ObjectTyped(GIT_SOURCE.members, Obj(o));
    assert GIT_SOURCE.members.Keys == {"repo", "branch", "path", "build"};
  }

  lemma GitSourceBuild(o: Members)
    requires Literals(Obj(o))
    ensures Field(o, "build", Build("auto", None), ReadBuild).Some? <==> Holds(BUILD, o, "build")
  {
    hide HasType, ReadBuild, BUILD;
    if "build" in o {
      BuildTyped(Build("auto", None), o["build"]);
    }
    FieldTyped(BUILD, o, "build", Build("auto", None), ReadBuild);
  }

  lemma GitSourceTyped(was: GitSource, v: Value)
    requires Literals(v)
    ensures ReadGitSource(was, v).Some? <==> HasType(GIT_SOURCE, v, false)
  {
    NoObjectTyped(GIT_SOURCE, v);
    hide HasType, Holds, Field, Pointer, Slice, Table, Literals, ReadBuild, ReadStr, GIT_SOURCE, BUILD;
    if v.Obj? {
      var o := v.members;
      GitSourceMembers(o);
      TextField(o, "repo", "");
      TextField(o, "branch", DEFAULT_BRANCH);
      TextField(o, "path", "");
      GitSourceBuild(o);
    }
  }

  lemma SourceMembers(o: Members)
    ensures HasType(SOURCE, Obj(o), false) <==>
      && Holds(Text, o, "image")
      && Holds(GIT_SOURCE, o, "git")
  {
    hide HasType, Holds, GIT_SOURCE;
    ObjectTyped(SOURCE.members, Obj(o));
    assert SOURCE.members.Keys == {"image", "git"};
  }

  lemma SourceGit(o: Members)
    requires Literals(Obj(o))
    ensures Pointer(o, "git", NO_GIT_SOURCE, ReadGitSource).Some? <==> Holds(GIT_SOURCE, o, "git")
  {
    hide HasType, ReadGitSource;
    if "git" in o {
      GitSourceTyped(NO_GIT_SOURCE, o["git"]);
    }
    PointerTyped(GIT_SOURCE, o, "git", NO_GIT_SOURCE, ReadGitSource);
  }

  lemma SourceTyped(was: Source, v: Value)
    requires Literals(v)
    ensures ReadSource(was, v).Some? <==> HasType(SOURCE, v, false)
  {
    NoObjectTyped(SOURCE, v);
    hide HasType, Holds, Field, Pointer, Slice, Table, Literals, ReadGitSource, ReadStr, SOURCE, GIT_SOURCE;
    if v.Obj? {
      var o := v.members;
      SourceMembers(o);
      TextPointer(o, "image");
      SourceGit(o);
    }
  }

  lemma ReplicasMembers(o: Members)
    ensures HasType(REPLICAS, Obj(o), false) <==>
      && Holds(Number(0, TWO_TO_THE_32), o, "min")
      && Holds(Number(0, TWO_TO_THE_32), o, "max")
  {
    hide HasType, Holds;
    ObjectTyped(REPLICAS.members, Obj(o));
    assert REPLICAS.members.Keys == {"min", "max"};
  }

  lemma ReplicasMin(o: Members)
    requires Literals(Obj(o))
    ensures Field(o, "min", 1, ReadU32).Some? <==> Holds(Number(0, TWO_TO_THE_32), o, "min")
  {
    hide HasType, ReadU32;
    if "min" in o {
      U32Typed(1, o["min"]);
    }
    FieldTyped(Number(0, TWO_TO_THE_32), o, "min", 1, ReadU32);
  }

  lemma ReplicasMax(o: Members)
    requires Literals(Obj(o))
    ensures Field(o, "max", 1, ReadU32).Some? <==> Holds(Number(0, TWO_TO_THE_32), o, "max")
  {
    hide HasType, ReadU32;
    if "max" in o {
      U32Typed(1, o["max"]);
    }
    FieldTyped(Number(0, TWO_TO_THE_32), o, "max", 1, ReadU32);
  }

  lemma ReplicasTyped(was: Replicas, v: Value)
    requires Literals(v)
    ensures ReadReplicas(was, v).Some? <==> HasType(REPLICAS, v, false)
  {
    NoObjectTyped(REPLICAS, v);
    hide HasType, Holds, Field, Pointer, Slice, Table, Literals, ReadU32, REPLICAS;
    if v.Obj? {
      var o := v.members;
      ReplicasMembers(o);
      ReplicasMin(o);
      ReplicasMax(o);
    }
  }

  lemma IdleMembers(o: Members)
    ensures HasType(IDLE, Obj(o), false) <==>
      && Holds(Enum({"off", "zero", "throttle"}), o, "mode")
      && Holds(Text, o, "after")
  {
    hide HasType, Holds;
    ObjectTyped(IDLE.members, Obj(o));
    assert IDLE.members.Keys == {"mode", "after"};
  }

  lemma IdleMode(o: Members)
    requires Literals(Obj(o))
    ensures Field(o, "mode", "off", ReadMode).Some? <==> Holds(Enum({"off", "zero", "throttle"}), o, "mode")
  {
    hide HasType, ReadMode;
    if "mode" in o {
      ModeTyped("off", o["mode"]);
    }
    FieldTyped(Enum({"off", "zero", "throttle"}), o, "mode", "off", ReadMode);
  }

  lemma IdleTyped(was: Idle, v: Value)
    requires Literals(v)
    ensures ReadIdle(was, v).Some? <==> HasType(IDLE, v, false)
  {
    NoObjectTyped(IDLE, v);
    hide HasType, Holds, Field, Pointer, Slice, Table, Literals, ReadMode, ReadStr, IDLE;
    if v.Obj? {
      var o := v.members;
      IdleMembers(o);
      IdleMode(o);
      TextField(o, "after", DEFAULT_IDLE_AFTER);
    }
  }

  lemma ProcessMembers(o: Members)
    ensures HasType(PROCESS, Obj(o), false) <==>
      && Holds(ListOf(Text), o, "command")
      && Holds(Number(0, TWO_TO_THE_16), o, "port")
      && Holds(Text, o, "size")
      && Holds(REPLICAS, o, "replicas")
      && Holds(IDLE, o, "idle")
      && Holds(Text, o, "schedule")
      && Holds(Text, o, "timeZone")
      && Holds(Enum({"http", "tcp"}), o, "protocol")
  {
    hide HasType, Holds, IDLE, REPLICAS;
    ObjectTyped(PROCESS.members, Obj(o));
    assert PROCESS.members.Keys == {"command", "port", "size", "replicas", "idle", "schedule", "timeZone", "protocol"};
  }

  lemma ProcessCommand(o: Members)
    requires Literals(Obj(o))
    ensures Slice(o, "command", "", ReadStr).Some? <==> Holds(ListOf(Text), o, "command")
  {
    hide HasType, ReadStr;
    if "command" in o && o["command"].Arr? {
      forall i | 0 <= i < |o["command"].items|
        ensures ReadStr("", o["command"].items[i]).Some? <==> HasType(Text, o["command"].items[i], false)
      {
        StrTyped("", o["command"].items[i]);
      }
    }
    SliceTyped(Text, o, "command", "", ReadStr);
  }

  lemma ProcessPort(o: Members)
    requires Literals(Obj(o))
    ensures Pointer(o, "port", 0, ReadU16).Some? <==> Holds(Number(0, TWO_TO_THE_16), o, "port")
  {
    hide HasType, ReadU16;
    if "port" in o {
      U16Typed(0, o["port"]);
    }
    PointerTyped(Number(0, TWO_TO_THE_16), o, "port", 0, ReadU16);
  }

  lemma ProcessReplicas(o: Members)
    requires Literals(Obj(o))
    ensures Field(o, "replicas", Replicas(1, 1), ReadReplicas).Some? <==> Holds(REPLICAS, o, "replicas")
  {
    hide HasType, ReadReplicas, REPLICAS;
    if "replicas" in o {
      ReplicasTyped(Replicas(1, 1), o["replicas"]);
    }
    FieldTyped(REPLICAS, o, "replicas", Replicas(1, 1), ReadReplicas);
  }

  lemma ProcessIdle(o: Members)
    requires Literals(Obj(o))
    ensures Pointer(o, "idle", NO_IDLE, ReadIdle).Some? <==> Holds(IDLE, o, "idle")
  {
    hide HasType, ReadIdle;
    if "idle" in o {
      IdleTyped(NO_IDLE, o["idle"]);
    }
    PointerTyped(IDLE, o, "idle", NO_IDLE, ReadIdle);
  }

  lemma ProcessProtocol(o: Members)
    requires Literals(Obj(o))
    ensures Field(o, "protocol", "http", ReadProtocol).Some? <==> Holds(Enum({"http", "tcp"}), o, "protocol")
  {
    hide HasType, ReadProtocol;
    if "protocol" in o {
      ProtocolTyped("http", o["protocol"]);
    }
    FieldTyped(Enum({"http", "tcp"}), o, "protocol", "http", ReadProtocol);
  }

  lemma ProcessTyped(was: Process, v: Value)
    requires Literals(v)
    ensures ReadProcess(was, v).Some? <==> HasType(PROCESS, v, false)
  {
    NoObjectTyped(PROCESS, v);
    hide HasType, Holds, Field, Pointer, Slice, Table, Literals, ReadIdle, ReadProtocol, ReadReplicas, ReadStr, ReadU16, PROCESS, IDLE, REPLICAS;
    if v.Obj? {
      var o := v.members;
      ProcessMembers(o);
      ProcessCommand(o);
      ProcessPort(o);
      TextField(o, "size", DEFAULT_PROCESS_SIZE);
      ProcessReplicas(o);
      ProcessIdle(o);
      TextPointer(o, "schedule");
      TextPointer(o, "timeZone");
      ProcessProtocol(o);
    }
  }

  lemma HealthCheckMembers(o: Members)
    ensures HasType(HEALTH_CHECK, Obj(o), false) <==>
      && Holds(Text, o, "path")
      && Holds(Number(0, TWO_TO_THE_16), o, "port")
  {
    hide HasType, Holds;
    ObjectTyped(HEALTH_CHECK.members, Obj(o));
    assert HEALTH_CHECK.members.Keys == {"path", "port"};
  }

  lemma HealthCheckPort(o: Members)
    requires Literals(Obj(o))
    ensures Pointer(o, "port", 0, ReadU16).Some? <==> Holds(Number(0, TWO_TO_THE_16), o, "port")
  {
    hide HasType, ReadU16;
    if "port" in o {
      U16Typed(0, o["port"]);
    }
    PointerTyped(Number(0, TWO_TO_THE_16), o, "port", 0, ReadU16);
  }

  lemma HealthCheckTyped(was: HealthCheck, v: Value)
    requires Literals(v)
    ensures ReadHealthCheck(was, v).Some? <==> HasType(HEALTH_CHECK, v, false)
  {
    NoObjectTyped(HEALTH_CHECK, v);
    hide HasType, Holds, Field, Pointer, Slice, Table, Literals, ReadStr, ReadU16, HEALTH_CHECK;
    if v.Obj? {
      var o := v.members;
      HealthCheckMembers(o);
      TextField(o, "path", was.path);
      HealthCheckPort(o);
    }
  }

  lemma RuntimeMembers(o: Members)
    ensures HasType(RUNTIME, Obj(o), false) <==>
      && Holds(TableOf(PROCESS), o, "processes")
      && Holds(HEALTH_CHECK, o, "healthCheck")
      && Holds(Number(-TWO_TO_THE_63, TWO_TO_THE_63), o, "fsGroup")
  {
    hide HasType, Holds, HEALTH_CHECK, PROCESS;
    ObjectTyped(RUNTIME.members, Obj(o));
    assert RUNTIME.members.Keys == {"processes", "healthCheck", "fsGroup"};
  }

  lemma RuntimeProcesses(o: Members)
    requires Literals(Obj(o))
    ensures Table(o, "processes", NO_PROCESS, ReadProcess).Some? <==> Holds(TableOf(PROCESS), o, "processes")
  {
    hide HasType, ReadProcess, PROCESS;
    if "processes" in o && o["processes"].Obj? {
      forall k | k in o["processes"].members
        ensures ReadProcess(NO_PROCESS, o["processes"].members[k]).Some? <==> HasType(PROCESS, o["processes"].members[k], false)
      {
        ProcessTyped(NO_PROCESS, o["processes"].members[k]);
      }
    }
    TableTyped(PROCESS, o, "processes", NO_PROCESS, ReadProcess);
  }

  lemma RuntimeHealthCheck(o: Members)
    requires Literals(Obj(o))
    ensures Pointer(o, "healthCheck", NO_HEALTH_CHECK, ReadHealthCheck).Some? <==> Holds(HEALTH_CHECK, o, "healthCheck")
  {
    hide HasType, ReadHealthCheck;
    if "healthCheck" in o {
      HealthCheckTyped(NO_HEALTH_CHECK, o["healthCheck"]);
    }
    PointerTyped(HEALTH_CHECK, o, "healthCheck", NO_HEALTH_CHECK, ReadHealthCheck);
  }

  lemma RuntimeFsGroup(o: Members)
    requires Literals(Obj(o))
    ensures Pointer(o, "fsGroup", 0, ReadI64).Some? <==> Holds(Number(-TWO_TO_THE_63, TWO_TO_THE_63), o, "fsGroup")
  {
    hide HasType, ReadI64;
    if "fsGroup" in o {
      I64Typed(0, o["fsGroup"]);
    }
    PointerTyped(Number(-TWO_TO_THE_63, TWO_TO_THE_63), o, "fsGroup", 0, ReadI64);
  }

  lemma RuntimeTyped(was: Runtime, v: Value)
    requires Literals(v)
    ensures ReadRuntime(was, v).Some? <==> HasType(RUNTIME, v, false)
  {
    NoObjectTyped(RUNTIME, v);
    hide HasType, Holds, Field, Pointer, Slice, Table, Literals, ReadHealthCheck, ReadI64, ReadProcess, RUNTIME, HEALTH_CHECK, PROCESS;
    if v.Obj? {
      var o := v.members;
      RuntimeMembers(o);
      RuntimeProcesses(o);
      RuntimeHealthCheck(o);
      RuntimeFsGroup(o);
    }
  }

  lemma AppSpecMembers(o: Members)
    ensures HasType(APP_SPEC, Obj(o), false) <==>
      && Holds(SOURCE, o, "source")
      && Holds(RUNTIME, o, "runtime")
      && Holds(ListOf(ENV_VAR), o, "env")
      && Holds(ListOf(DOMAIN), o, "domains")
      && Holds(ListOf(VOLUME), o, "volumes")
      && Holds(ListOf(Text), o, "imagePullSecrets")
  {
    hide HasType, Holds, DOMAIN, ENV_VAR, RUNTIME, SOURCE, VOLUME;
    ObjectTyped(APP_SPEC.members, Obj(o));
    assert APP_SPEC.members.Keys == {"source", "runtime", "env", "domains", "volumes", "imagePullSecrets"};
  }

  lemma AppSpecSource(o: Members, was: AppSpec)
    requires Literals(Obj(o))
    ensures Field(o, "source", was.source, ReadSource).Some? <==> Holds(SOURCE, o, "source")
  {
    hide HasType, ReadSource, SOURCE;
    if "source" in o {
      SourceTyped(was.source, o["source"]);
    }
    FieldTyped(SOURCE, o, "source", was.source, ReadSource);
  }

  lemma AppSpecRuntime(o: Members, was: AppSpec)
    requires Literals(Obj(o))
    ensures Field(o, "runtime", was.runtime, ReadRuntime).Some? <==> Holds(RUNTIME, o, "runtime")
  {
    hide HasType, ReadRuntime, RUNTIME;
    if "runtime" in o {
      RuntimeTyped(was.runtime, o["runtime"]);
    }
    FieldTyped(RUNTIME, o, "runtime", was.runtime, ReadRuntime);
  }

  lemma AppSpecEnv(o: Members)
    requires Literals(Obj(o))
    ensures Slice(o, "env", NO_ENV_VAR, ReadEnvVar).Some? <==> Holds(ListOf(ENV_VAR), o, "env")
  {
    hide HasType, ReadEnvVar, ENV_VAR;
    if "env" in o && o["env"].Arr? {
      forall i | 0 <= i < |o["env"].items|
        ensures ReadEnvVar(NO_ENV_VAR, o["env"].items[i]).Some? <==> HasType(ENV_VAR, o["env"].items[i], false)
      {
        EnvVarTyped(NO_ENV_VAR, o["env"].items[i]);
      }
    }
    SliceTyped(ENV_VAR, o, "env", NO_ENV_VAR, ReadEnvVar);
  }

  lemma AppSpecDomains(o: Members)
    requires Literals(Obj(o))
    ensures Slice(o, "domains", NO_DOMAIN, ReadDomain).Some? <==> Holds(ListOf(DOMAIN), o, "domains")
  {
    hide HasType, ReadDomain, DOMAIN;
    if "domains" in o && o["domains"].Arr? {
      forall i | 0 <= i < |o["domains"].items|
        ensures ReadDomain(NO_DOMAIN, o["domains"].items[i]).Some? <==> HasType(DOMAIN, o["domains"].items[i], false)
      {
        DomainTyped(NO_DOMAIN, o["domains"].items[i]);
      }
    }
    SliceTyped(DOMAIN, o, "domains", NO_DOMAIN, ReadDomain);
  }

  lemma AppSpecVolumes(o: Members)
    requires Literals(Obj(o))
    ensures Slice(o, "volumes", NO_VOLUME, ReadVolume).Some? <==> Holds(ListOf(VOLUME), o, "volumes")
  {
    hide HasType, ReadVolume, VOLUME;
    if "volumes" in o && o["volumes"].Arr? {
      forall i | 0 <= i < |o["volumes"].items|
        ensures ReadVolume(NO_VOLUME, o["volumes"].items[i]).Some? <==> HasType(VOLUME, o["volumes"].items[i], false)
      {
        VolumeTyped(NO_VOLUME, o["volumes"].items[i]);
      }
    }
    SliceTyped(VOLUME, o, "volumes", NO_VOLUME, ReadVolume);
  }

  lemma AppSpecImagePullSecrets(o: Members)
    requires Literals(Obj(o))
    ensures Slice(o, "imagePullSecrets", "", ReadStr).Some? <==> Holds(ListOf(Text), o, "imagePullSecrets")
  {
    hide HasType, ReadStr;
    if "imagePullSecrets" in o && o["imagePullSecrets"].Arr? {
      forall i | 0 <= i < |o["imagePullSecrets"].items|
        ensures ReadStr("", o["imagePullSecrets"].items[i]).Some? <==> HasType(Text, o["imagePullSecrets"].items[i], false)
      {
        StrTyped("", o["imagePullSecrets"].items[i]);
      }
    }
    SliceTyped(Text, o, "imagePullSecrets", "", ReadStr);
  }

  lemma AppSpecTyped(was: AppSpec, v: Value)
    requires Literals(v)
    ensures ReadAppSpec(was, v).Some? <==> HasType(APP_SPEC, v, false)
  {
    NoObjectTyped(APP_SPEC, v);
    hide HasType, Holds, Field, Pointer, Slice, Table, Literals, ReadDomain, ReadEnvVar, ReadRuntime, ReadSource, ReadStr, ReadVolume, APP_SPEC, DOMAIN, ENV_VAR, RUNTIME, SOURCE, VOLUME;
    if v.Obj? {
      var o := v.members;
      AppSpecMembers(o);
      AppSpecSource(o, was);
      AppSpecRuntime(o, was);
      AppSpecEnv(o);
      AppSpecDomains(o);
      AppSpecVolumes(o);
      AppSpecImagePullSecrets(o);
    }
  }

  // ---------- The required members ----------

  /** Nothing in it is required. */
  ghost predicate Lenient(t: Type)
    decreases t
  {
    match t
    case ListOf(items) => Lenient(items)
    case TableOf(values) => Lenient(values)
    case Object(members) => forall m :: m in members ==> members[m].Optional? && Lenient(members[m].type_)
    case _ => true
  }

  lemma {:induction false} LenientIsStrict(t: Type, v: Value)
    requires Lenient(t)
    ensures HasType(t, v, true) <==> HasType(t, v, false)
    decreases t
  {
    match t
    case ListOf(items) =>
      if v.Arr? {
        forall i | 0 <= i < |v.items| ensures HasType(items, v.items[i], true) <==> HasType(items, v.items[i], false) {
          LenientIsStrict(items, v.items[i]);
        }
      }
    case TableOf(values) =>
      if v.Obj? {
        forall k | k in v.members ensures HasType(values, v.members[k], true) <==> HasType(values, v.members[k], false) {
          LenientIsStrict(values, v.members[k]);
        }
      }
    case Object(members) =>
      if v.Obj? {
        forall m | m in members ensures Fits(members[m], v, m, true) <==> Fits(members[m], v, m, false) {
          if m in v.members {
            LenientIsStrict(members[m].type_, v.members[m]);
          }
        }
      }
    case _ =>
  }

  /** With strict, v is of the type exactly if it is without and lacks nothing that the shape requires. */
  ghost predicate Splits(t: Type, shape: Shape, v: Value) {
    HasType(t, v, true) <==> HasType(t, v, false) && Whole(shape, v)
  }

  /** The shape requires of an object what its type does. */
  ghost predicate Matching(members: map<string, Entry>, shape: Shape, v: Value)
    requires v.Obj?
  {
    && (forall m :: m in shape.members || m in shape.objects || m in shape.lists ==> m in members)
    && (forall m :: m in shape.objects ==> m !in shape.lists)
    && (forall m :: m in members ==> (members[m].Required? <==> m in shape.members))
    && (forall k :: k in shape.objects ==> Splits(members[k].type_, shape.objects[k], v.At(k)))
    && (forall k :: k in shape.lists ==> members[k].type_.ListOf? && SplitsItems(members[k].type_.items, shape.lists[k], v.At(k)))
    && (forall m :: m in members && m !in shape.objects && m !in shape.lists ==>
          (HasType(members[m].type_, v.At(m), true) <==> HasType(members[m].type_, v.At(m), false)))
  }

  ghost predicate SplitsItems(t: Type, shape: Shape, v: Value) {
    v.Arr? ==> forall i :: 0 <= i < |v.items| ==> Splits(t, shape, v.items[i])
  }

  lemma ListSplits(t: Type, shape: Shape, v: Value)
    requires SplitsItems(t, shape, v)
    ensures HasType(ListOf(t), v, true) <==> HasType(ListOf(t), v, false) && WholeItems(shape, v)
  {
    hide Whole;
  }

  /** What the shape says of one member and what is below it. */
  ghost predicate WholeAt(shape: Shape, v: Value, m: string)
    requires v.Obj?
  {
    && (m in shape.members ==> !Absent(v, m))
    && (m in shape.objects ==> Whole(shape.objects[m], v.At(m)))
    && (m in shape.lists ==> WholeItems(shape.lists[m], v.At(m)))
  }

  lemma MemberSplits(members: map<string, Entry>, shape: Shape, v: Value, m: string)
    requires v.Obj? && Matching(members, shape, v) && m in members
    ensures Fits(members[m], v, m, true) <==> Fits(members[m], v, m, false) && WholeAt(shape, v, m)
  {
    hide Whole, WholeItems, HasType, SplitsItems;
    if m !in v.members {
      NothingIsWhole(shape, v, m);
    } else if m in shape.lists {
      ListSplits(members[m].type_.items, shape.lists[m], v.At(m));
    }
  }

  lemma NothingIsWhole(shape: Shape, v: Value, m: string)
    requires v.Obj? && m !in v.members
    ensures m in shape.objects ==> Whole(shape.objects[m], v.At(m))
    ensures m in shape.lists ==> WholeItems(shape.lists[m], v.At(m))
  {
    if m in shape.objects {
      NoObjectLacksNothing(shape.objects[m], v.At(m));
    }
  }

  lemma WholeIsAll(members: map<string, Entry>, shape: Shape, v: Value)
    requires v.Obj? && Matching(members, shape, v)
    ensures Whole(shape, v) <==> forall m :: m in members ==> WholeAt(shape, v, m)
  {
    hide Whole, WholeItems, HasType, Splits, SplitsItems, Absent;
    if Whole(shape, v) {
      WholeBelow(shape, v);
    }
    if forall m :: m in members ==> WholeAt(shape, v, m) {
      forall m | m in shape.members || m in shape.objects || m in shape.lists ensures WholeAt(shape, v, m) {
        assert m in members;
      }
      WholeFromParts(shape, v);
    }
  }

  lemma ObjectSplits(members: map<string, Entry>, shape: Shape, v: Value)
    requires v.Obj? && Matching(members, shape, v)
    ensures Splits(Object(members), shape, v)
  {
    hide Whole, WholeAt, Fits, Matching;
    WholeIsAll(members, shape, v);
    forall m | m in members ensures Fits(members[m], v, m, true) <==> Fits(members[m], v, m, false) && WholeAt(shape, v, m) {
      MemberSplits(members, shape, v, m);
    }
  }

  lemma NoObjectSplits(t: Type, shape: Shape, v: Value)
    requires t.Object? && !v.Obj?
    ensures Splits(t, shape, v)
  {
    hide Whole;
    NoObjectLacksNothing(shape, v);
  }

  lemma KeyRefKeys()
    ensures KEY_REF.Object? && KEY_REF.members.Keys == {"name", "key"}
    ensures KEY_REF.members["name"] == Required(Text)
    ensures KEY_REF.members["key"] == Required(Text)
    ensures (forall m :: m in KeyRefShape.members <==> m in {"name", "key"})
    ensures KeyRefShape.objects.Keys == {} && KeyRefShape.lists.Keys == {}
  {
  }

  lemma KeyRefSplits(v: Value)
    ensures Splits(KEY_REF, KeyRefShape, v)
  {
    KeyRefKeys();
    hide HasType, Whole, Splits, SplitsItems, KEY_REF, KeyRefShape;
    if v.Obj? {
      KeyRefPlain(v);
      ObjectSplits(KEY_REF.members, KeyRefShape, v);
    } else {
      NoObjectSplits(KEY_REF, KeyRefShape, v);
    }
  }

  /** The members below which nothing is required. */
  lemma KeyRefPlain(v: Value)
    requires v.Obj?
    ensures forall m :: m in {"name", "key"} ==>
      (HasType(KEY_REF.members[m].type_, v.At(m), true) <==> HasType(KEY_REF.members[m].type_, v.At(m), false))
  {
    KeyRefKeys();
    hide HasType, KEY_REF;
    LenientIsStrict(Text, v.At("name"));
    LenientIsStrict(Text, v.At("key"));
  }

  lemma EnvVarKeys()
    ensures ENV_VAR.Object? && ENV_VAR.members.Keys == {"name", "value", "fromSecret", "fromService"}
    ensures ENV_VAR.members["name"] == Required(Text)
    ensures ENV_VAR.members["value"] == Optional(Text)
    ensures ENV_VAR.members["fromSecret"] == Optional(KEY_REF)
    ensures ENV_VAR.members["fromService"] == Optional(KEY_REF)
    ensures (forall m :: m in EnvVarShape.members <==> m in {"name"})
    ensures EnvVarShape.objects.Keys == {"fromSecret", "fromService"} && EnvVarShape.lists.Keys == {}
    ensures EnvVarShape.objects["fromSecret"] == KeyRefShape
    ensures EnvVarShape.objects["fromService"] == KeyRefShape
  {
    hide KEY_REF, KeyRefShape;
  }

  lemma EnvVarSplits(v: Value)
    ensures Splits(ENV_VAR, EnvVarShape, v)
  {
    EnvVarKeys();
    hide HasType, Whole, Splits, SplitsItems, ENV_VAR, EnvVarShape, KEY_REF, KeyRefShape;
    if v.Obj? {
      EnvVarPlain(v);
      KeyRefSplits(v.At("fromSecret"));
      KeyRefSplits(v.At("fromService"));
      ObjectSplits(ENV_VAR.members, EnvVarShape, v);
    } else {
      NoObjectSplits(ENV_VAR, EnvVarShape, v);
    }
  }

  /** The members below which nothing is required. */
  lemma EnvVarPlain(v: Value)
    requires v.Obj?
    ensures forall m :: m in {"name", "value"} ==>
      (HasType(ENV_VAR.members[m].type_, v.At(m), true) <==> HasType(ENV_VAR.members[m].type_, v.At(m), false))
  {
    EnvVarKeys();
    hide HasType, ENV_VAR, KEY_REF, KeyRefShape;
    LenientIsStrict(Text, v.At("name"));
    LenientIsStrict(Text, v.At("value"));
  }

  lemma EnvVarItemsSplit(v: Value)
    ensures SplitsItems(ENV_VAR, EnvVarShape, v)
  {
    hide Splits, ENV_VAR, EnvVarShape;
    if v.Arr? {
      forall i | 0 <= i < |v.items| ensures Splits(ENV_VAR, EnvVarShape, v.items[i]) {
        EnvVarSplits(v.items[i]);
      }
    }
  }

  lemma DomainKeys()
    ensures DOMAIN.Object? && DOMAIN.members.Keys == {"host", "tls"}
    ensures DOMAIN.members["host"] == Required(Text)
    ensures DOMAIN.members["tls"] == Optional(Text)
    ensures (forall m :: m in DomainShape.members <==> m in {"host"})
    ensures DomainShape.objects.Keys == {} && DomainShape.lists.Keys == {}
  {
  }

  lemma DomainSplits(v: Value)
    ensures Splits(DOMAIN, DomainShape, v)
  {
    DomainKeys();
    hide HasType, Whole, Splits, SplitsItems, DOMAIN, DomainShape;
    if v.Obj? {
      DomainPlain(v);
      ObjectSplits(DOMAIN.members, DomainShape, v);
    } else {
      NoObjectSplits(DOMAIN, DomainShape, v);
    }
  }

  /** The members below which nothing is required. */
  lemma DomainPlain(v: Value)
    requires v.Obj?
    ensures forall m :: m in {"host", "tls"} ==>
      (HasType(DOMAIN.members[m].type_, v.At(m), true) <==> HasType(DOMAIN.members[m].type_, v.At(m), false))
  {
    DomainKeys();
    hide HasType, DOMAIN;
    LenientIsStrict(Text, v.At("host"));
    LenientIsStrict(Text, v.At("tls"));
  }

  lemma DomainItemsSplit(v: Value)
    ensures SplitsItems(DOMAIN, DomainShape, v)
  {
    hide Splits, DOMAIN, DomainShape;
    if v.Arr? {
      forall i | 0 <= i < |v.items| ensures Splits(DOMAIN, DomainShape, v.items[i]) {
        DomainSplits(v.items[i]);
      }
    }
  }

  lemma VolumeKeys()
    ensures VOLUME.Object? && VOLUME.members.Keys == {"name", "mountPath", "size", "storageClass"}
    ensures VOLUME.members["name"] == Required(Text)
    ensures VOLUME.members["mountPath"] == Required(Text)
    ensures VOLUME.members["size"] == Optional(Text)
    ensures VOLUME.members["storageClass"] == Optional(Text)
    ensures (forall m :: m in VolumeShape.members <==> m in {"name", "mountPath"})
    ensures VolumeShape.objects.Keys == {} && VolumeShape.lists.Keys == {}
  {
  }

  lemma VolumeSplits(v: Value)
    ensures Splits(VOLUME, VolumeShape, v)
  {
    VolumeKeys();
    hide HasType, Whole, Splits, SplitsItems, VOLUME, VolumeShape;
    if v.Obj? {
      VolumePlain(v);
      ObjectSplits(VOLUME.members, VolumeShape, v);
    } else {
      NoObjectSplits(VOLUME, VolumeShape, v);
    }
  }

  /** The members below which nothing is required. */
  lemma VolumePlain(v: Value)
    requires v.Obj?
    ensures forall m :: m in {"name", "mountPath", "size", "storageClass"} ==>
      (HasType(VOLUME.members[m].type_, v.At(m), true) <==> HasType(VOLUME.members[m].type_, v.At(m), false))
  {
    VolumeKeys();
    hide HasType, VOLUME;
    LenientIsStrict(Text, v.At("name"));
    LenientIsStrict(Text, v.At("mountPath"));
    LenientIsStrict(Text, v.At("size"));
    LenientIsStrict(Text, v.At("storageClass"));
  }

  lemma VolumeItemsSplit(v: Value)
    ensures SplitsItems(VOLUME, VolumeShape, v)
  {
    hide Splits, VOLUME, VolumeShape;
    if v.Arr? {
      forall i | 0 <= i < |v.items| ensures Splits(VOLUME, VolumeShape, v.items[i]) {
        VolumeSplits(v.items[i]);
      }
    }
  }

  lemma GitSourceKeys()
    ensures GIT_SOURCE.Object? && GIT_SOURCE.members.Keys == {"repo", "branch", "path", "build"}
    ensures GIT_SOURCE.members["repo"] == Required(Text)
    ensures GIT_SOURCE.members["branch"] == Optional(Text)
    ensures GIT_SOURCE.members["path"] == Optional(Text)
    ensures GIT_SOURCE.members["build"] == Optional(BUILD)
    ensures (forall m :: m in GitSourceShape.members <==> m in {"repo"})
    ensures GitSourceShape.objects.Keys == {} && GitSourceShape.lists.Keys == {}
  {
    hide BUILD;
  }

  lemma GitSourceSplits(v: Value)
    ensures Splits(GIT_SOURCE, GitSourceShape, v)
  {
    GitSourceKeys();
    hide HasType, Whole, Splits, SplitsItems, GIT_SOURCE, GitSourceShape, BUILD;
    if v.Obj? {
      GitSourcePlain(v);
      ObjectSplits(GIT_SOURCE.members, GitSourceShape, v);
    } else {
      NoObjectSplits(GIT_SOURCE, GitSourceShape, v);
    }
  }

  /** The members below which nothing is required. */
  lemma GitSourcePlain(v: Value)
    requires v.Obj?
    ensures forall m :: m in {"repo", "branch", "path", "build"} ==>
      (HasType(GIT_SOURCE.members[m].type_, v.At(m), true) <==> HasType(GIT_SOURCE.members[m].type_, v.At(m), false))
  {
    GitSourceKeys();
    hide HasType, GIT_SOURCE, BUILD;
    LenientIsStrict(Text, v.At("repo"));
    LenientIsStrict(Text, v.At("branch"));
    LenientIsStrict(Text, v.At("path"));
    BuildLenient();
    LenientIsStrict(BUILD, v.At("build"));
  }

  lemma SourceKeys()
    ensures SOURCE.Object? && SOURCE.members.Keys == {"image", "git"}
    ensures SOURCE.members["image"] == Optional(Text)
    ensures SOURCE.members["git"] == Optional(GIT_SOURCE)
    ensures (forall m :: m in SourceShape.members <==> m in {})
    ensures SourceShape.objects.Keys == {"git"} && SourceShape.lists.Keys == {}
    ensures SourceShape.objects["git"] == GitSourceShape
  {
    hide GIT_SOURCE, GitSourceShape;
  }

  lemma SourceSplits(v: Value)
    ensures Splits(SOURCE, SourceShape, v)
  {
    SourceKeys();
    hide HasType, Whole, Splits, SplitsItems, SOURCE, SourceShape, GIT_SOURCE, GitSourceShape;
    if v.Obj? {
      SourcePlain(v);
      GitSourceSplits(v.At("git"));
      ObjectSplits(SOURCE.members, SourceShape, v);
    } else {
      NoObjectSplits(SOURCE, SourceShape, v);
    }
  }

  /** The members below which nothing is required. */
  lemma SourcePlain(v: Value)
    requires v.Obj?
    ensures forall m :: m in {"image"} ==>
      (HasType(SOURCE.members[m].type_, v.At(m), true) <==> HasType(SOURCE.members[m].type_, v.At(m), false))
  {
    SourceKeys();
    hide HasType, SOURCE, GIT_SOURCE, GitSourceShape;
    LenientIsStrict(Text, v.At("image"));
  }

  lemma HealthCheckKeys()
    ensures HEALTH_CHECK.Object? && HEALTH_CHECK.members.Keys == {"path", "port"}
    ensures HEALTH_CHECK.members["path"] == Required(Text)
    ensures HEALTH_CHECK.members["port"] == Optional(Number(0, TWO_TO_THE_16))
    ensures (forall m :: m in HealthCheckShape.members <==> m in {"path"})
    ensures HealthCheckShape.objects.Keys == {} && HealthCheckShape.lists.Keys == {}
  {
  }

  lemma HealthCheckSplits(v: Value)
    ensures Splits(HEALTH_CHECK, HealthCheckShape, v)
  {
    HealthCheckKeys();
    hide HasType, Whole, Splits, SplitsItems, HEALTH_CHECK, HealthCheckShape;
    if v.Obj? {
      HealthCheckPlain(v);
      ObjectSplits(HEALTH_CHECK.members, HealthCheckShape, v);
    } else {
      NoObjectSplits(HEALTH_CHECK, HealthCheckShape, v);
    }
  }

  /** The members below which nothing is required. */
  lemma HealthCheckPlain(v: Value)
    requires v.Obj?
    ensures forall m :: m in {"path", "port"} ==>
      (HasType(HEALTH_CHECK.members[m].type_, v.At(m), true) <==> HasType(HEALTH_CHECK.members[m].type_, v.At(m), false))
  {
    HealthCheckKeys();
    hide HasType, HEALTH_CHECK;
    LenientIsStrict(Text, v.At("path"));
    LenientIsStrict(Number(0, TWO_TO_THE_16), v.At("port"));
  }

  lemma RuntimeKeys()
    ensures RUNTIME.Object? && RUNTIME.members.Keys == {"processes", "healthCheck", "fsGroup"}
    ensures RUNTIME.members["processes"] == Required(TableOf(PROCESS))
    ensures RUNTIME.members["healthCheck"] == Optional(HEALTH_CHECK)
    ensures RUNTIME.members["fsGroup"] == Optional(Number(-TWO_TO_THE_63, TWO_TO_THE_63))
    ensures (forall m :: m in RuntimeShape.members <==> m in {"processes"})
    ensures RuntimeShape.objects.Keys == {"healthCheck"} && RuntimeShape.lists.Keys == {}
    ensures RuntimeShape.objects["healthCheck"] == HealthCheckShape
  {
    hide HEALTH_CHECK, PROCESS, HealthCheckShape;
  }

  lemma RuntimeSplits(v: Value)
    ensures Splits(RUNTIME, RuntimeShape, v)
  {
    RuntimeKeys();
    hide HasType, Whole, Splits, SplitsItems, RUNTIME, RuntimeShape, HEALTH_CHECK, PROCESS, HealthCheckShape;
    if v.Obj? {
      RuntimePlain(v);
      HealthCheckSplits(v.At("healthCheck"));
      ObjectSplits(RUNTIME.members, RuntimeShape, v);
    } else {
      NoObjectSplits(RUNTIME, RuntimeShape, v);
    }
  }

  /** The members below which nothing is required. */
  lemma RuntimePlain(v: Value)
    requires v.Obj?
    ensures forall m :: m in {"processes", "fsGroup"} ==>
      (HasType(RUNTIME.members[m].type_, v.At(m), true) <==> HasType(RUNTIME.members[m].type_, v.At(m), false))
  {
    RuntimeKeys();
    hide HasType, RUNTIME, HEALTH_CHECK, PROCESS, HealthCheckShape;
    ProcessLenient();
    LenientIsStrict(TableOf(PROCESS), v.At("processes"));
    LenientIsStrict(Number(-TWO_TO_THE_63, TWO_TO_THE_63), v.At("fsGroup"));
  }

  lemma AppSpecKeys()
    ensures APP_SPEC.Object? && APP_SPEC.members.Keys == {"source", "runtime", "env", "domains", "volumes", "imagePullSecrets"}
    ensures APP_SPEC.members["source"] == Required(SOURCE)
    ensures APP_SPEC.members["runtime"] == Required(RUNTIME)
    ensures APP_SPEC.members["env"] == Optional(ListOf(ENV_VAR))
    ensures APP_SPEC.members["domains"] == Optional(ListOf(DOMAIN))
    ensures APP_SPEC.members["volumes"] == Optional(ListOf(VOLUME))
    ensures APP_SPEC.members["imagePullSecrets"] == Optional(ListOf(Text))
    ensures (forall m :: m in AppSpecShape.members <==> m in {"source", "runtime"})
    ensures AppSpecShape.objects.Keys == {"source", "runtime"} && AppSpecShape.lists.Keys == {"env", "domains", "volumes"}
    ensures AppSpecShape.objects["source"] == SourceShape
    ensures AppSpecShape.objects["runtime"] == RuntimeShape
    ensures AppSpecShape.lists["env"] == EnvVarShape
    ensures AppSpecShape.lists["domains"] == DomainShape
    ensures AppSpecShape.lists["volumes"] == VolumeShape
  {
    hide DOMAIN, ENV_VAR, RUNTIME, SOURCE, VOLUME, DomainShape, EnvVarShape, RuntimeShape, SourceShape, VolumeShape;
  }

  lemma AppSpecSplits(v: Value)
    ensures Splits(APP_SPEC, AppSpecShape, v)
  {
    AppSpecKeys();
    hide HasType, Whole, Splits, SplitsItems, APP_SPEC, AppSpecShape;
    if v.Obj? {
      AppSpecNames();
      AppSpecObjects(v);
      AppSpecLists(v);
      AppSpecOthers(v);
      ObjectSplits(APP_SPEC.members, AppSpecShape, v);
    } else {
      NoObjectSplits(APP_SPEC, AppSpecShape, v);
    }
  }

  lemma AppSpecNames()
    ensures forall m :: m in AppSpecShape.members || m in AppSpecShape.objects || m in AppSpecShape.lists ==> m in APP_SPEC.members
    ensures forall m :: m in AppSpecShape.objects ==> m !in AppSpecShape.lists
    ensures forall m :: m in APP_SPEC.members ==> (APP_SPEC.members[m].Required? <==> m in AppSpecShape.members)
  {
    AppSpecKeys();
    hide SOURCE, RUNTIME, ENV_VAR, DOMAIN, VOLUME, SourceShape, RuntimeShape, EnvVarShape, DomainShape, VolumeShape, APP_SPEC,
         AppSpecShape;
  }

  lemma AppSpecObjects(v: Value)
    requires v.Obj?
    ensures forall k :: k in AppSpecShape.objects ==>
      k in APP_SPEC.members && Splits(APP_SPEC.members[k].type_, AppSpecShape.objects[k], v.At(k))
  {
    AppSpecKeys();
    hide Splits, SOURCE, RUNTIME, ENV_VAR, DOMAIN, VOLUME, SourceShape, RuntimeShape, EnvVarShape, DomainShape, VolumeShape,
         APP_SPEC, AppSpecShape;
    SourceSplits(v.At("source"));
    RuntimeSplits(v.At("runtime"));
  }

  lemma AppSpecLists(v: Value)
    requires v.Obj?
    ensures forall k :: k in AppSpecShape.lists ==>
      && k in APP_SPEC.members && APP_SPEC.members[k].type_.ListOf?
      && SplitsItems(APP_SPEC.members[k].type_.items, AppSpecShape.lists[k], v.At(k))
  {
    AppSpecKeys();
    hide SplitsItems, SOURCE, RUNTIME, ENV_VAR, DOMAIN, VOLUME, SourceShape, RuntimeShape, EnvVarShape, DomainShape, VolumeShape,
         APP_SPEC, AppSpecShape;
    EnvVarItemsSplit(v.At("env"));
    DomainItemsSplit(v.At("domains"));
    VolumeItemsSplit(v.At("volumes"));
  }

  lemma AppSpecOthers(v: Value)
    requires v.Obj?
    ensures forall m :: m in APP_SPEC.members && m !in AppSpecShape.objects && m !in AppSpecShape.lists ==>
      (HasType(APP_SPEC.members[m].type_, v.At(m), true) <==> HasType(APP_SPEC.members[m].type_, v.At(m), false))
  {
    AppSpecKeys();
    AppSpecPlain(v);
    hide HasType, SOURCE, RUNTIME, ENV_VAR, DOMAIN, VOLUME, SourceShape, RuntimeShape, EnvVarShape, DomainShape, VolumeShape,
         APP_SPEC, AppSpecShape;
  }

  /** The members below which nothing is required. */
  lemma AppSpecPlain(v: Value)
    requires v.Obj?
    ensures forall m :: m in {"imagePullSecrets"} ==>
      (HasType(APP_SPEC.members[m].type_, v.At(m), true) <==> HasType(APP_SPEC.members[m].type_, v.At(m), false))
  {
    AppSpecKeys();
    hide HasType, APP_SPEC, DOMAIN, ENV_VAR, RUNTIME, SOURCE, VOLUME, DomainShape, EnvVarShape, RuntimeShape, SourceShape, VolumeShape;
    LenientIsStrict(ListOf(Text), v.At("imagePullSecrets"));
  }

  lemma BuildLenient()
    ensures Lenient(BUILD)
  {
  }

  lemma ProcessLenient()
    ensures Lenient(PROCESS)
  {
    assert Lenient(REPLICAS) && Lenient(IDLE);
  }

  // ---------- Exactly these documents ----------

  /** A document is accepted exactly if every member of it has its type and every required one is there. */
  lemma AcceptedExactly(v: Value)
    requires Literals(v)
    ensures DecodeAppSpec(v).Ok? <==> HasType(APP_SPEC, v, true)
  {
    hide Check, ReadAppSpec, HasType, Whole, AppSpecShape, APP_SPEC, Literals;
    WholeIsAccepted(AppSpecShape, v);
    AppSpecTyped(NO_APP_SPEC, v);
    AppSpecSplits(v);
  }
}
