/** How a value of the generic binding travels: encoded to a datum, sent as data or through shared
    memory, and decoded again. Values of the bindings in the azure-functions SDK are not modelled. */
module Channel {
  import opened Outcomes
  import opened Utf8
  import opened LengthHeader
  import opened FileSystem
  import opened SharedMemorySpec
  import opened SharedMemoryProofs
  import M = SharedMemoryManager

  /** Python values by the classes encode tells apart. A dict or list carries what json.dumps makes of
      it, or the exception that raises. */
  datatype PyValue =
    | NoneValue
    | Str(s: PyString)
    | Bytes(b: seq<Byte>)
    | Bytearray(b: seq<Byte>)
    | Dict(json: Outcome<PyString>)
    | List(json: Outcome<PyString>)
    | Int(n: int)
    | Bool(flag: bool)
    | Float(x: real)
    | Other

  datatype DatumType =
    StringType | BytesType | JsonType | DictType | ListType | IntType | DoubleType | BoolType | NoType
  datatype Datum = Datum(value: PyValue, typ: DatumType)

  /** The kinds of TypedData that generic values are sent as. */
  datatype TypedData =
    TdString(s: PyString) | TdBytes(b: seq<Byte>) | TdJson(s: PyString) | TdInt(n: int) | TdDouble(x: real)

  datatype RpcSharedMemory = RpcSharedMemory(name: string, offset: int, count: int, isString: bool)

  datatype RpcData = Unset | Data(data: TypedData) | Shared(shmem: RpcSharedMemory)
  datatype ParameterBinding = ParameterBinding(name: string, rpcData: RpcData)

  /** The switches of one transfer: shared memory enabled, function data cache enabled. */
  datatype Policy = Policy(enabled: bool, cache: bool)

  // ----- GenericBinding -----

  /** isinstance(True, int) holds in Python, so the bool branch is never reached. */
  predicate IsInstanceOfInt(obj: PyValue) { obj.Int? || obj.Bool? }

  function EncodeGeneric(obj: PyValue): Outcome<Datum> {
    if obj.Str? then Returned(Datum(obj, StringType))
    else if obj.Bytes? || obj.Bytearray? then Returned(Datum(Bytes(obj.b), BytesType))
    else if obj.NoneValue? then Returned(Datum(obj, NoType))
    else if obj.Dict? then Returned(Datum(obj, DictType))
    else if obj.List? then Returned(Datum(obj, ListType))
    else if IsInstanceOfInt(obj) then Returned(Datum(obj, IntType))
    else if obj.Float? then Returned(Datum(obj, DoubleType))
    else Raised(NotImplementedError)
  }

  function DecodeGeneric(data: Option<Datum>): Outcome<PyValue> {
    match data
    case None => Returned(NoneValue)
    case Some(d) =>
      if d.typ in {StringType, BytesType, JsonType} then Returned(d.value)
      else if d.typ.NoType? then Returned(NoneValue)
      else Raised(ValueError)
  }

  /** get_datum: a value the binding cannot encode is a TypeError. */
  function GetDatum(obj: PyValue): Outcome<Datum> {
    match EncodeGeneric(obj)
    case Raised(_) => Raised(TypeError)
    case Returned(d) => Returned(d)
  }

  // ----- Datum and protobuf -----

  /** A protobuf string field takes no lone surrogates, and an int field is 64 bits wide. */
  function DatumAsProto(datum: Datum): Outcome<Option<TypedData>> {
    match datum
    case Datum(Str(s), StringType) => if IsScalarString(s) then Returned(Some(TdString(s))) else Raised(UnicodeError)
    case Datum(Bytes(b), BytesType) => Returned(Some(TdBytes(b)))
    case Datum(_, NoType) => Returned(None)
    case Datum(Dict(json), DictType) => if json.Raised? then Raised(json.exc) else Returned(Some(TdJson(json.value)))
    case Datum(List(json), ListType) => if json.Raised? then Raised(json.exc) else Returned(Some(TdJson(json.value)))
    case Datum(Int(n), IntType) => if 0 <= n + TWO_63 < TWO_64 then Returned(Some(TdInt(n))) else Raised(ValueError)
    case Datum(Bool(flag), IntType) => Returned(Some(TdInt(if flag then 1 else 0)))
    case Datum(Float(x), DoubleType) => Returned(Some(TdDouble(x)))
    case Datum(_, _) => Raised(NotImplementedError)
  }

  function DatumFromTypedData(td: TypedData): Outcome<Option<Datum>> {
    match td
    case TdString(s) => Returned(Some(Datum(Str(s), StringType)))
    case TdBytes(b) => Returned(Some(Datum(Bytes(b), BytesType)))
    case TdJson(s) => Returned(Some(Datum(Str(s), JsonType)))
    case TdInt(_) => Raised(NotImplementedError)
    case TdDouble(_) => Raised(NotImplementedError)
  }

  // ----- Policy -----

  predicate IsSupported(datum: Datum) {
    match datum
    case Datum(Bytes(b), BytesType) => MIN_TRANSFER <= |b| <= MAX_TRANSFER
    case Datum(Str(s), StringType) => MIN_TRANSFER <= |s| * SIZE_OF_CHAR <= MAX_TRANSFER
    case Datum(_, _) => false
  }

  predicate SupportsCaching(datum: Datum) { datum.typ in {BytesType, StringType} }

  predicate CanTransferOverShmem(policy: Policy, datum: Datum) {
    policy.enabled && (IsSupported(datum) || (policy.cache && SupportsCaching(datum)))
  }

  // ----- The two directions, on values -----

  /** What put_bytes or put_string is given. */
  function PutDatum(st: Shm, datum: Datum, env: PutEnv): (Shm, Outcome<Option<Metadata>>) {
    match datum
    case Datum(Bytes(b), BytesType) => Put(st, b, env)
    case Datum(Str(s), StringType) =>
      if Encode(s).Raised? then (st, Raised(UnicodeError)) else Put(st, Encode(s).value, env)
    case Datum(_, _) => (st, Raised(NotImplementedError))
  }

  function ToRpcSharedMemory(st: Shm, datum: Datum, env: PutEnv): (Shm, Outcome<Option<RpcSharedMemory>>) {
    var (after, meta) := PutDatum(st, datum, env);
    match meta
    case Raised(e) => (after, Raised(e))
    case Returned(None) => (after, Returned(None))
    case Returned(Some(m)) =>
      if m.count >= TWO_63 then (after, Raised(ValueError))
      else (after, Returned(Some(RpcSharedMemory(m.name, 0, m.count, datum.typ.StringType?))))
  }

  function Outgoing(st: Shm, obj: PyValue, outName: string, policy: Policy, env: PutEnv)
    : (Shm, Outcome<ParameterBinding>) {
    match GetDatum(obj)
    case Raised(e) => (st, Raised(e))
    case Returned(datum) =>
      var (after, shared) :=
        if CanTransferOverShmem(policy, datum) then ToRpcSharedMemory(st, datum, env) else (st, Returned(None));
      match shared
      case Raised(e) => (after, Raised(e))
      case Returned(Some(shmem)) => (after, Returned(ParameterBinding(outName, Shared(shmem))))
      case Returned(None) => (after, OverRpc(datum, outName))
  }

  /** The value sent in the message itself; a None leaves the field unset. */
  function OverRpc(datum: Datum, outName: string): Outcome<ParameterBinding> {
    match DatumAsProto(datum)
    case Raised(e) => Raised(e)
    case Returned(None) => Returned(ParameterBinding(outName, Unset))
    case Returned(Some(td)) => Returned(ParameterBinding(outName, Data(td)))
  }

  function FromRpcSharedMemory(st: Shm, shmem: RpcSharedMemory, unopenable: set<string>): Outcome<Option<Datum>> {
    match Get(st, shmem.name, shmem.offset, shmem.count, unopenable)
    case Raised(e) => Raised(e)
    case Returned(None) => Returned(None)
    case Returned(Some(b)) =>
      if !shmem.isString then Returned(Some(Datum(Bytes(b), BytesType)))
      else
        match Decode(b)
        case Raised(e) => Raised(e)
        case Returned(s) => Returned(Some(Datum(Str(s), StringType)))
  }

  function Incoming(st: Shm, pb: ParameterBinding, unopenable: set<string>): Outcome<PyValue> {
    match pb.rpcData
    case Unset => Raised(TypeError)
    case Data(td) =>
      var datum :- DatumFromTypedData(td);
      DecodeGeneric(datum)
    case Shared(shmem) =>
      var datum :- FromRpcSharedMemory(st, shmem, unopenable);
      DecodeGeneric(datum)
  }

  // ----- The same, through the manager -----

  method ToOutgoingParamBinding(mgr: M.SharedMemoryManager, obj: PyValue, outName: string, policy: Policy, env: PutEnv)
    returns (r: Outcome<ParameterBinding>)
    requires mgr.Valid()
    modifies mgr`live, mgr.accessor.disk`files
    ensures mgr.Valid()
    ensures (mgr.State(), r) == Outgoing(old(mgr.State()), obj, outName, policy, env)
    ensures r.Returned? ==> r.value.name == outName
    ensures r.Returned? ==>
              if r.value.rpcData.Shared? then SendsShared(obj, policy) else Message(obj) == Returned(r.value.rpcData)
  {
    OutgoingMeaning(mgr.State(), obj, outName, policy, env);
    var got := GetDatum(obj);
    if got.Raised? { return Raised(got.exc); }
    var datum := got.value;
    if CanTransferOverShmem(policy, datum) {
      var meta: Outcome<Option<Metadata>>;
      if datum.typ.BytesType? {
        meta := mgr.PutBytes(datum.value.b, env);
      } else {
        meta := mgr.PutString(datum.value.s, env);
      }
      if meta.Raised? { return Raised(meta.exc); }
      if meta.value.Some? {
        var m := meta.value.value;
        if m.count >= TWO_63 { return Raised(ValueError); }
        return Returned(ParameterBinding(outName, Shared(RpcSharedMemory(m.name, 0, m.count, datum.typ.StringType?))));
      }
    }
    return OverRpc(datum, outName);
  }

  method FromIncomingProto(mgr: M.SharedMemoryManager, pb: ParameterBinding, unopenable: set<string>)
    returns (r: Outcome<PyValue>)
    requires mgr.Valid()
    ensures r == Incoming(mgr.State(), pb, unopenable)
  {
    match pb.rpcData {
      case Unset => return Raised(TypeError);
      case Data(td) =>
        var datum := DatumFromTypedData(td);
        if datum.Raised? { return Raised(datum.exc); }
        return DecodeGeneric(datum.value);
      case Shared(shmem) =>
        if shmem.isString {
          var s := mgr.GetString(shmem.name, shmem.offset, shmem.count, unopenable);
          if s.Raised? { return Raised(s.exc); }
          return DecodeGeneric(if s.value.None? then None else Some(Datum(Str(s.value.value), StringType)));
        } else {
          var b := mgr.GetBytes(shmem.name, shmem.offset, shmem.count, unopenable);
          if b.Raised? { return Raised(b.exc); }
          return DecodeGeneric(if b.value.None? then None else Some(Datum(Bytes(b.value.value), BytesType)));
        }
    }
  }

  /** What the receiver makes of every message: text and bytes as they are, JSON as its text, numbers and an
      unset field not at all; shared memory as the bytes or the text read, None if there is nothing to read. */
  lemma IncomingMeaning(st: Shm, pb: ParameterBinding, unopenable: set<string>)
    ensures Incoming(st, pb, unopenable) ==
            match pb.rpcData
            case Unset => Raised(TypeError)
            case Data(TdString(s)) => Returned(Str(s))
            case Data(TdBytes(b)) => Returned(Bytes(b))
            case Data(TdJson(s)) => Returned(Str(s))
            case Data(_) => Raised(NotImplementedError)
            case Shared(RpcSharedMemory(name, offset, count, isString)) =>
              match Get(st, name, offset, count, unopenable)
              case Raised(e) => Raised(e)
              case Returned(None) => Returned(NoneValue)
              case Returned(Some(b)) =>
                if !isString then Returned(Bytes(b))
                else if Decode(b).Raised? then Raised(Decode(b).exc)
                else Returned(Str(Decode(b).value))
  {
  }

  // ----- Transparency -----

  /** Send a value and receive what was sent. */
  function RoundTrip(st: Shm, obj: PyValue, policy: Policy, env: PutEnv, unopenable: set<string>): Outcome<PyValue> {
    var (after, pb) := Outgoing(st, obj, "out", policy, env);
    if pb.Raised? then Raised(pb.exc) else Incoming(after, pb.value, unopenable)
  }

  /** What the plain channel delivers, for every kind of value: strings and bytes arrive, containers
      arrive as their JSON text, everything else is refused on one side or the other. */
  function Plain(obj: PyValue): Outcome<PyValue> {
    match obj
    case Str(s) => if IsScalarString(s) then Returned(obj) else Raised(UnicodeError)
    case Bytes(b) => Returned(obj)
    case Bytearray(b) => Returned(Bytes(b))
    case Dict(json) => if json.Raised? then Raised(json.exc) else Returned(Str(json.value))
    case List(json) => if json.Raised? then Raised(json.exc) else Returned(Str(json.value))
    case Int(n) => if 0 <= n + TWO_63 < TWO_64 then Raised(NotImplementedError) else Raised(ValueError)
    case Bool(_) => Raised(NotImplementedError)
    case Float(_) => Raised(NotImplementedError)
    case NoneValue => Raised(TypeError)
    case Other => Raised(TypeError)
  }

  lemma PlainChannel(st: Shm, obj: PyValue, cache: bool, env: PutEnv, unopenable: set<string>)
    ensures RoundTrip(st, obj, Policy(false, cache), env, unopenable) == Plain(obj)
  {
  }

  /** The bytes a value would put into shared memory, if it can go there at all. */
  function Payload(obj: PyValue): Option<seq<Byte>> {
    match obj
    case Str(s) => if Encode(s).Returned? then Some(Encode(s).value) else None
    case Bytes(b) => Some(b)
    case Bytearray(b) => Some(b)
    case _ => None
  }

  /** The name is new (a fresh UUID), and the payload is no longer than a Python bytes object can be. */
  predicate Sendable(st: Shm, obj: PyValue, env: PutEnv) {
    && env.name != "" && !Exists(st.files.Keys, st.dirs, env.name)
    && (Payload(obj).Some? ==> |Payload(obj).value| < TWO_63)
  }

  /** Which values are meant for shared memory: 1 MB to 2 GB of bytes, or of characters at two bytes each;
      with the cache, bytes and strings of any size. */
  predicate SendsShared(obj: PyValue, policy: Policy) {
    policy.enabled &&
    match obj
    case Bytes(b) => policy.cache || 0x10_0000 <= |b| <= 0x8000_0000
    case Bytearray(b) => policy.cache || 0x10_0000 <= |b| <= 0x8000_0000
    case Str(s) => policy.cache || 0x8_0000 <= |s| <= 0x4000_0000
    case _ => false
  }

  /** What the message itself carries for each kind of value. */
  function Message(obj: PyValue): Outcome<RpcData> {
    match obj
    case NoneValue => Returned(Unset)
    case Str(s) => if IsScalarString(s) then Returned(Data(TdString(s))) else Raised(UnicodeError)
    case Bytes(b) => Returned(Data(TdBytes(b)))
    case Bytearray(b) => Returned(Data(TdBytes(b)))
    case Dict(json) => if json.Raised? then Raised(json.exc) else Returned(Data(TdJson(json.value)))
    case List(json) => if json.Raised? then Raised(json.exc) else Returned(Data(TdJson(json.value)))
    case Int(n) =>
      if -0x8000_0000_0000_0000 <= n < 0x8000_0000_0000_0000 then Returned(Data(TdInt(n))) else Raised(ValueError)
    case Bool(flag) => Returned(Data(TdInt(if flag then 1 else 0)))
    case Float(x) => Returned(Data(TdDouble(x)))
    case Other => Raised(TypeError)
  }

  predicate UsesSharedMemory(st: Shm, obj: PyValue, policy: Policy, env: PutEnv) {
    && SendsShared(obj, policy) && Payload(obj).Some?
    && exists j :: 0 <= j < |st.dirs| && env.attempts(j).Succeeds?
  }

  /** The policy, in terms of the value that is sent. */
  lemma PolicyMeaning(obj: PyValue, policy: Policy)
    ensures GetDatum(obj).Returned? ==>
              (CanTransferOverShmem(policy, GetDatum(obj).value) <==> SendsShared(obj, policy))
    ensures GetDatum(obj).Raised? ==> !SendsShared(obj, policy)
  {
  }

  /** Every binding has the name it was asked for, and carries the value in the message exactly as its kind
      says, unless it says shared memory, which it does only for values meant for it. A value not meant for
      shared memory touches nothing. */
  lemma OutgoingMeaning(st: Shm, obj: PyValue, outName: string, policy: Policy, env: PutEnv)
    ensures var (after, r) := Outgoing(st, obj, outName, policy, env);
            && (r.Returned? ==> r.value.name == outName)
            && (r.Returned? && r.value.rpcData.Shared? ==> SendsShared(obj, policy))
            && (r.Returned? && !r.value.rpcData.Shared? ==> Message(obj) == Returned(r.value.rpcData))
            && (!SendsShared(obj, policy) ==>
                  after == st && r == NamedMessage(obj, outName))
  {
    PolicyMeaning(obj, policy);
  }

  function NamedMessage(obj: PyValue, outName: string): Outcome<ParameterBinding> {
    if Message(obj).Raised? then Raised(Message(obj).exc) else Returned(ParameterBinding(outName, Message(obj).value))
  }

  lemma SharedChoice(st: Shm, obj: PyValue, outName: string, policy: Policy, env: PutEnv)
    requires Sendable(st, obj, env) && SendsShared(obj, policy)
    ensures var (after, r) := Outgoing(st, obj, outName, policy, env);
            if UsesSharedMemory(st, obj, policy, env) then
              && Put(st, Payload(obj).value, env) == (after, Returned(Some(Metadata(env.name, |Payload(obj).value|))))
              && r == Returned(ParameterBinding(outName,
                                                Shared(RpcSharedMemory(env.name, 0, |Payload(obj).value|, obj.Str?))))
            else r == NamedMessage(obj, outName)
  {
    PolicyMeaning(obj, policy);
    if obj.Str? { EncodesIffScalar(obj.s); }
    if Payload(obj).Some? { PutOutcome(st, Payload(obj).value, env); }
  }

  /** The message says shared memory, with the name, length and kind of what was put, exactly when the value
      is meant for it, can be encoded, and a directory takes the file; otherwise it carries the value. */
  lemma ChannelChoice(st: Shm, obj: PyValue, outName: string, policy: Policy, env: PutEnv)
    requires Sendable(st, obj, env)
    ensures var (after, r) := Outgoing(st, obj, outName, policy, env);
            if UsesSharedMemory(st, obj, policy, env) then
              && Put(st, Payload(obj).value, env) == (after, Returned(Some(Metadata(env.name, |Payload(obj).value|))))
              && r == Returned(ParameterBinding(outName,
                                                Shared(RpcSharedMemory(env.name, 0, |Payload(obj).value|, obj.Str?))))
            else r == NamedMessage(obj, outName)
  {
    if SendsShared(obj, policy) {
      SharedChoice(st, obj, outName, policy, env);
    } else {
      OutgoingMeaning(st, obj, outName, policy, env);
    }
  }

  /** Without shared memory in the message, what arrives does not depend on the files at all. */
  lemma RpcIgnoresFiles(st: Shm, obj: PyValue, policy: Policy, env: PutEnv, unopenable: set<string>)
    requires Sendable(st, obj, env) && !UsesSharedMemory(st, obj, policy, env)
    ensures RoundTrip(st, obj, policy, env, unopenable) == Plain(obj)
  {
    ChannelChoice(st, obj, "out", policy, env);
  }

  /** What arrives, for every value, every setting of the two switches, every size, every outcome of
      creating the file and every set of directories that cannot be opened for reading: the plain
      channel's result if the message carries the value or the search ends at the file that was chosen; None
      if no file of the name opens; an error if the search ends at a left-over file. */
  lemma FastChannel(st: Shm, obj: PyValue, policy: Policy, env: PutEnv, unopenable: set<string>)
    requires Sendable(st, obj, env)
    ensures RoundTrip(st, obj, policy, env, unopenable) ==
            if !UsesSharedMemory(st, obj, policy, env) then Plain(obj)
            else
              match Reached(st.dirs, env, unopenable)
              case None => Returned(NoneValue)
              case Some(d) => if Some(d) == Chosen(st.dirs, env.attempts, 0) then Plain(obj) else Raised(ValueError)
  {
    ChannelChoice(st, obj, "out", policy, env);
    if UsesSharedMemory(st, obj, policy, env) {
      var content := Payload(obj).value;
      GetAfterPut(st, content, env, |content|, unopenable);
      assert content[..|content|] == content;
      if obj.Str? {
        EncodesIffScalar(obj.s);
        DecodeOfEncode(obj.s);
      }
    } else {
      RpcIgnoresFiles(st, obj, policy, env, unopenable);
    }
  }

  /** The fast channel delivers exactly what the plain one does if and only if it carries the value in the
      message, or the first directory, in search order, in which a file of the name opens is the one the
      creation chose. */
  lemma TransparentIff(st: Shm, obj: PyValue, policy: Policy, env: PutEnv, unopenable: set<string>)
    requires Sendable(st, obj, env)
    ensures RoundTrip(st, obj, policy, env, unopenable) == Plain(obj) <==>
            || !UsesSharedMemory(st, obj, policy, env)
            || Reached(st.dirs, env, unopenable) == Chosen(st.dirs, env.attempts, 0)
  {
    FastChannel(st, obj, policy, env, unopenable);
    if UsesSharedMemory(st, obj, policy, env) {
      SharedIsDelivered(st, obj, policy, env);
    }
  }

  /** Values that use shared memory are among those the plain channel delivers, and a directory took them. */
  lemma SharedIsDelivered(st: Shm, obj: PyValue, policy: Policy, env: PutEnv)
    requires UsesSharedMemory(st, obj, policy, env)
    ensures Plain(obj).Returned? && Plain(obj).value != NoneValue && Chosen(st.dirs, env.attempts, 0).Some?
  {
    if obj.Str? { EncodesIffScalar(obj.s); }
    var j :| 0 <= j < |st.dirs| && env.attempts(j).Succeeds?;
    CreateFileSome(map[], st.dirs, "", 0, env.attempts, 0);
    CreateFileChooses(map[], st.dirs, "", 0, env.attempts, 0);
  }

  /** A string of scalar values, or bytes, arrives as it was sent, under the same condition. */
  lemma ChannelTransparency(st: Shm, obj: PyValue, policy: Policy, env: PutEnv, unopenable: set<string>)
    requires obj.Bytes? || (obj.Str? && IsScalarString(obj.s))
    requires Sendable(st, obj, env)
    ensures RoundTrip(st, obj, policy, env, unopenable) == Returned(obj) <==>
            || !UsesSharedMemory(st, obj, policy, env)
            || Reached(st.dirs, env, unopenable) == Chosen(st.dirs, env.attempts, 0)
  {
    TransparentIff(st, obj, policy, env, unopenable);
  }

  /** When the creation leaves no second file, only a directory that opens for writing and not for reading
      comes between the two channels: the receiver is then handed None. */
  lemma FastEqualsPlain(st: Shm, obj: PyValue, policy: Policy, env: PutEnv, unopenable: set<string>)
    requires Sendable(st, obj, env) && SingleFile(st.dirs, env.attempts)
    ensures UsesSharedMemory(st, obj, policy, env) ==> Chosen(st.dirs, env.attempts, 0).Some?
    ensures RoundTrip(st, obj, policy, env, unopenable) ==
            if UsesSharedMemory(st, obj, policy, env) && Chosen(st.dirs, env.attempts, 0).value in unopenable
            then Returned(NoneValue)
            else Plain(obj)
  {
    FastChannel(st, obj, policy, env, unopenable);
    if UsesSharedMemory(st, obj, policy, env) {
      SharedIsDelivered(st, obj, policy, env);
      ReachedSingle(st.dirs, env, unopenable);
    }
  }

  /** When every directory opens, and none is listed twice, the transfer is transparent if and only if it
      does not use shared memory, or the creation left files in one directory only. */
  lemma TransparentWhenReadable(st: Shm, obj: PyValue, policy: Policy, env: PutEnv, unopenable: set<string>)
    requires Sendable(st, obj, env) && DistinctDirs(st.dirs)
    requires forall d :: d in st.dirs ==> d !in unopenable
    ensures RoundTrip(st, obj, policy, env, unopenable) == Plain(obj) <==>
            !UsesSharedMemory(st, obj, policy, env) || SingleFile(st.dirs, env.attempts)
  {
    TransparentIff(st, obj, policy, env, unopenable);
    if UsesSharedMemory(st, obj, policy, env) {
      SharedIsDelivered(st, obj, policy, env);
      var j := ChosenAt(st.dirs, env.attempts, 0);
      if SingleFile(st.dirs, env.attempts) {
        ReachedSingle(st.dirs, env, unopenable);
      } else {
        ReachedLeftOver(st.dirs, env, unopenable);
      }
    }
  }

  /** Concrete transfers of an empty bytes value, which the cache setting sends through shared memory. With
      a left-over file in the first directory the receiver fails, unless that directory cannot be opened
      for reading; and when the only file cannot be opened, the receiver is handed None. */
  lemma NotAlwaysTransparent()
    ensures Plain(Bytes([])) == Returned(Bytes([]))
    ensures var st, env := TwoDirs(), SizedInSecond();
            && Sendable(st, Bytes([]), env) && !SingleFile(st.dirs, env.attempts)
            && RoundTrip(st, Bytes([]), Policy(true, true), env, {}) == Raised(ValueError)
            && RoundTrip(st, Bytes([]), Policy(true, true), env, {"/dev/shm"}) == Returned(Bytes([]))
    ensures var st := Shm(["/dev/shm"], map[], {});
            var env := PutEnv("m", i => Succeeds, Little, Faults({}, true));
            && Sendable(st, Bytes([]), env)
            && RoundTrip(st, Bytes([]), Policy(true, true), env, {"/dev/shm"}) == Returned(NoneValue)
  {
    LeftOverTransfers();
    NoneArrives();
  }

  lemma LeftOverTransfers()
    ensures var st, env := TwoDirs(), SizedInSecond();
            && Sendable(st, Bytes([]), env) && !SingleFile(st.dirs, env.attempts)
            && RoundTrip(st, Bytes([]), Policy(true, true), env, {}) == Raised(ValueError)
            && RoundTrip(st, Bytes([]), Policy(true, true), env, {"/dev/shm"}) == Returned(Bytes([]))
  {
    var st, env := TwoDirs(), SizedInSecond();
    assert Touched(st.dirs, env.attempts, 0, 0) && Touched(st.dirs, env.attempts, 0, 1);
    assert Chosen(st.dirs, env.attempts, 1) == Some("/tmp");
    assert UsesSharedMemory(st, Bytes([]), Policy(true, true), env) by {
      assert 0 <= 1 < |st.dirs| && env.attempts(1).Succeeds?;
    }
    assert Path("/dev/shm", "m") in LeftPaths(st.dirs, env) && Path("/tmp", "m") in LeftPaths(st.dirs, env);
    SearchAt(LeftPaths(st.dirs, env), st.dirs, "m", {}, 0);
    SearchAt(LeftPaths(st.dirs, env), st.dirs, "m", {"/dev/shm"}, 1);
    FastChannel(st, Bytes([]), Policy(true, true), env, {});
    FastChannel(st, Bytes([]), Policy(true, true), env, {"/dev/shm"});
  }

  lemma NoneArrives()
    ensures var st := Shm(["/dev/shm"], map[], {});
            var env := PutEnv("m", i => Succeeds, Little, Faults({}, true));
            && Sendable(st, Bytes([]), env)
            && RoundTrip(st, Bytes([]), Policy(true, true), env, {"/dev/shm"}) == Returned(NoneValue)
  {
    var st := Shm(["/dev/shm"], map[], {});
    var env := PutEnv("m", i => Succeeds, Little, Faults({}, true));
    assert 0 <= 0 < |st.dirs| && env.attempts(0).Succeeds?;
    assert UsesSharedMemory(st, Bytes([]), Policy(true, true), env);
    FastEqualsPlain(st, Bytes([]), Policy(true, true), env, {"/dev/shm"});
  }

  /** The "unsupported datum type" error of to_rpc_shared_memory cannot happen on the outgoing path: that
      path ends in NotImplementedError only if the JSON text of a container could not be made for it. */
  lemma UnsupportedNeverReached(st: Shm, obj: PyValue, policy: Policy, env: PutEnv)
    ensures Outgoing(st, obj, "out", policy, env).1 == Raised(NotImplementedError) <==>
            (obj.Dict? || obj.List?) && obj.json == Raised(NotImplementedError)
    ensures GetDatum(obj).Returned? && CanTransferOverShmem(policy, GetDatum(obj).value) ==>
              ToRpcSharedMemory(st, GetDatum(obj).value, env).1 != Raised(NotImplementedError)
  {
    if Payload(obj).Some? {
      PutNeverUnsupported(st, Payload(obj).value, env);
    }
  }

  lemma PutNeverUnsupported(st: Shm, content: seq<Byte>, env: PutEnv)
    ensures Put(st, content, env).1 != Raised(NotImplementedError)
  {
  }
}
