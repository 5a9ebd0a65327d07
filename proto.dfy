/** The in-memory protocol model (src/proto.rs) and the type mapper that turns
    each argument into the four artifacts the emitter splices into generated
    code: a read on the message cursor, a write on the message stream, the owned
    parameter type of a request handler and the send parameter type of an event
    method. */
module Proto {
  import opened Base

  // ---------------------------------------------------------------------------
  // Data model
  // ---------------------------------------------------------------------------

  /** The eight wire data types. Every mapping site below matches on all of them. */
  datatype DataType = Int | Uint | Fixed | String | Array | Fd | Object | NewId

  /** `interface` is the pinned interface of an object or new-id argument. */
  datatype Arg = Arg(
    name: string,
    nullable: bool,
    ty: DataType,
    interface: Option<string>,
    enumeration: Option<string>,
    summary: Option<string>)

  datatype Entry = Entry(
    name: string,
    since: Option<u32>,
    summary: Option<string>,
    description: Option<string>,
    value: u32)

  datatype Enum = Enum(
    name: string,
    summary: Option<string>,
    description: Option<string>,
    since: Option<u32>,
    entries: seq<Entry>)

  datatype Request = Request(
    name: string,
    since: Option<u32>,
    destructor: bool,
    summary: Option<string>,
    description: Option<string>,
    args: seq<Arg>)

  datatype Event = Event(
    name: string,
    since: Option<u32>,
    summary: Option<string>,
    description: Option<string>,
    args: seq<Arg>)

  datatype Interface = Interface(
    name: string,
    summary: Option<string>,
    description: Option<string>,
    version: u32,
    enums: seq<Enum>,
    requests: seq<Request>,
    events: seq<Event>)

  datatype Protocol = Protocol(
    name: string,
    summary: Option<string>,
    description: Option<string>,
    copyright: Option<string>,
    interfaces: seq<Interface>)

  // ---------------------------------------------------------------------------
  // The schema as written: the fields that carry `#[serde(default)]` may be
  // absent. Parsing the text into this shape is not part of the model.
  // ---------------------------------------------------------------------------

  datatype SchemaArg = SchemaArg(
    name: string,
    allowNull: Option<bool>,
    ty: DataType,
    interface: Option<string>,
    enumeration: Option<string>,
    summary: Option<string>)

  datatype SchemaEnum = SchemaEnum(
    name: string,
    summary: Option<string>,
    description: Option<string>,
    since: Option<u32>,
    entry: Option<seq<Entry>>)

  datatype SchemaRequest = SchemaRequest(
    name: string,
    since: Option<u32>,
    destructor: Option<bool>,
    summary: Option<string>,
    description: Option<string>,
    arg: Option<seq<SchemaArg>>)

  datatype SchemaEvent = SchemaEvent(
    name: string,
    since: Option<u32>,
    summary: Option<string>,
    description: Option<string>,
    arg: Option<seq<SchemaArg>>)

  datatype SchemaInterface = SchemaInterface(
    name: string,
    summary: Option<string>,
    description: Option<string>,
    version: u32,
    enums: Option<seq<SchemaEnum>>,
    request: Option<seq<SchemaRequest>>,
    event: Option<seq<SchemaEvent>>)

  datatype SchemaProtocol = SchemaProtocol(
    name: string,
    summary: Option<string>,
    description: Option<string>,
    copyright: Option<string>,
    interface: Option<seq<SchemaInterface>>)

  function ArgFromSchema(s: SchemaArg): (a: Arg)
    ensures s.allowNull.None? ==> !a.nullable
    ensures s.allowNull.Some? ==> a.nullable == s.allowNull.value
    ensures a.name == s.name && a.ty == s.ty && a.interface == s.interface
    ensures a.enumeration == s.enumeration && a.summary == s.summary
  {
    Arg(s.name, OrDefault(s.allowNull, false), s.ty, s.interface, s.enumeration, s.summary)
  }

  function ArgsFromSchema(s: Option<seq<SchemaArg>>): (args: seq<Arg>)
    ensures s.None? ==> args == []
    ensures s.Some? ==> |args| == |s.value|
    ensures s.Some? ==> forall i :: 0 <= i < |args| ==> args[i] == ArgFromSchema(s.value[i])
  {
    var raw := OrDefault(s, []);
    seq(|raw|, i requires 0 <= i < |raw| => ArgFromSchema(raw[i]))
  }

  function EnumFromSchema(s: SchemaEnum): (e: Enum)
    ensures s.entry.None? ==> e.entries == []
    ensures s.entry.Some? ==> e.entries == s.entry.value
    ensures e.name == s.name
  {
    Enum(s.name, s.summary, s.description, s.since, OrDefault(s.entry, []))
  }

  function RequestFromSchema(s: SchemaRequest): (r: Request)
    ensures s.destructor.None? ==> !r.destructor
    ensures s.destructor.Some? ==> r.destructor == s.destructor.value
    ensures s.arg.None? ==> r.args == []
    ensures s.arg.Some? ==> |r.args| == |s.arg.value|
    ensures s.arg.Some? ==> forall k :: 0 <= k < |r.args| ==> r.args[k] == ArgFromSchema(s.arg.value[k])
    ensures r.name == s.name && r.since == s.since
  {
    Request(s.name, s.since, OrDefault(s.destructor, false), s.summary, s.description,
            ArgsFromSchema(s.arg))
  }

  function EventFromSchema(s: SchemaEvent): (e: Event)
    ensures s.arg.None? ==> e.args == []
    ensures s.arg.Some? ==> |e.args| == |s.arg.value|
    ensures s.arg.Some? ==> forall k :: 0 <= k < |e.args| ==> e.args[k] == ArgFromSchema(s.arg.value[k])
    ensures e.name == s.name && e.since == s.since
  {
    Event(s.name, s.since, s.summary, s.description, ArgsFromSchema(s.arg))
  }

  function InterfaceFromSchema(s: SchemaInterface): (i: Interface)
    ensures s.enums.None? ==> i.enums == []
    ensures s.request.None? ==> i.requests == []
    ensures s.event.None? ==> i.events == []
    ensures s.enums.Some? ==> |i.enums| == |s.enums.value|
    ensures s.enums.Some? ==> forall k :: 0 <= k < |i.enums| ==> i.enums[k] == EnumFromSchema(s.enums.value[k])
    ensures s.request.Some? ==> |i.requests| == |s.request.value|
    ensures s.request.Some? ==> forall k :: 0 <= k < |i.requests| ==> i.requests[k] == RequestFromSchema(s.request.value[k])
    ensures s.event.Some? ==> |i.events| == |s.event.value|
    ensures s.event.Some? ==> forall k :: 0 <= k < |i.events| ==> i.events[k] == EventFromSchema(s.event.value[k])
    ensures i.name == s.name && i.version == s.version
  {
    var enums := OrDefault(s.enums, []);
    var requests := OrDefault(s.request, []);
    var events := OrDefault(s.event, []);
    Interface(s.name, s.summary, s.description, s.version,
      seq(|enums|, k requires 0 <= k < |enums| => EnumFromSchema(enums[k])),
      seq(|requests|, k requires 0 <= k < |requests| => RequestFromSchema(requests[k])),
      seq(|events|, k requires 0 <= k < |events| => EventFromSchema(events[k])))
  }

  function ProtocolFromSchema(s: SchemaProtocol): (p: Protocol)
    ensures s.interface.None? ==> p.interfaces == []
    ensures s.interface.Some? ==> |p.interfaces| == |s.interface.value|
    ensures s.interface.Some? ==> forall k :: 0 <= k < |p.interfaces| ==> p.interfaces[k] == InterfaceFromSchema(s.interface.value[k])
    ensures p.name == s.name
  {
    var interfaces := OrDefault(s.interface, []);
    Protocol(s.name, s.summary, s.description, s.copyright,
      seq(|interfaces|, k requires 0 <= k < |interfaces| => InterfaceFromSchema(interfaces[k])))
  }

  // ---------------------------------------------------------------------------
  // Type mapper
  // ---------------------------------------------------------------------------

  /** Reads on the message cursor. `unwrap` is the `.ok_or(NON_NULLABLE)?` that
      turns an absent string or object into an error. */
  datatype ReadOp =
    | ReadI32 | ReadU32 | ReadFixed
    | ReadString(unwrap: bool)
    | ReadBytes | ReadFile
    | ReadObject(unwrap: bool)
    | ReadNewId

  /** Writes on the message stream. `wrapSome` is the `Some(..)` that a
      non-null value is wrapped in before it reaches the optional writer. */
  datatype WriteOp =
    | SendI32 | SendU32 | SendFixed
    | SendString(wrapSome: bool)
    | SendBytes | SendFile
    | SendObject(wrapSome: bool)
    | SendNewId

  /** The Rust types the mapper names: `i32`, `u32`, `Fixed`, text, bytes,
      a file handle, an object `Id` and a `NewId` descriptor. */
  datatype BaseType = I32 | U32 | FixedPoint | Text | Bytes | FileHandle | Id | NewIdHandle

  /** `Plain` is the owned form (`String`, `Vec<u8>`, `File`, `NewId`),
      `Borrowed` the borrowed form (`&str`, `&[u8]`, `Fd<'static>`, `&NewId`),
      `Optional` is `Option<..>`. */
  datatype TypeRep = Plain(base: BaseType) | Borrowed(base: BaseType) | Optional(inner: TypeRep)

  /** The read/write pairs the cursor and the stream provide: each reader and
      the writer of the same wire form, with unwrap exactly when wrap. */
  predicate Counterpart(r: ReadOp, w: WriteOp) {
    match (r, w)
    case (ReadI32, SendI32) => true
    case (ReadU32, SendU32) => true
    case (ReadFixed, SendFixed) => true
    case (ReadString(unwrap), SendString(wrap)) => unwrap == wrap
    case (ReadBytes, SendBytes) => true
    case (ReadFile, SendFile) => true
    case (ReadObject(unwrap), SendObject(wrap)) => unwrap == wrap
    case (ReadNewId, SendNewId) => true
    case _ => false
  }

  /** The send form of an owned type: text, bytes, file handles and new-id
      descriptors are passed borrowed; everything else as is. */
  function Lend(t: TypeRep): TypeRep {
    match t
    case Plain(b) => if b in {Text, Bytes, FileHandle, NewIdHandle} then Borrowed(b) else t
    case Borrowed(_) => t
    case Optional(inner) => Optional(Lend(inner))
  }

  /** `Arg::getter`: the decode expression of a request argument. Absence is an
      error exactly when the owned type has no room for it. */
  function Getter(a: Arg): (r: ReadOp)
    ensures (r.ReadString? || r.ReadObject?) ==> (r.unwrap <==> !Ty(a).Optional?)
  {
    match a.ty
    case Int => ReadI32
    case Uint => ReadU32
    case Fixed => ReadFixed
    case String => ReadString(!a.nullable)
    case Array => ReadBytes
    case Fd => ReadFile
    case Object => ReadObject(!a.nullable)
    case NewId => if a.interface.Some? then ReadObject(true) else ReadNewId
  }

  /** `Arg::sender`: the encode statement of an event argument, always the
      counterpart of the getter for the same argument. */
  function Sender(a: Arg): (w: WriteOp)
    ensures Counterpart(Getter(a), w)
  {
    match a.ty
    case Int => SendI32
    case Uint => SendU32
    case Fixed => SendFixed
    case String => SendString(!a.nullable)
    case Array => SendBytes
    case Fd => SendFile
    case Object => SendObject(!a.nullable)
    case NewId => if a.interface.Some? then SendObject(true) else SendNewId
  }

  /** `Arg::ty`: the owned parameter type of a request handler. It is optional
      exactly for a nullable string or object. */
  function Ty(a: Arg): (t: TypeRep)
    ensures t.Optional? <==> (a.ty == String || a.ty == Object) && a.nullable
    ensures t.Optional? ==> !t.inner.Optional?
  {
    match a.ty
    case Int => Plain(I32)
    case Uint => Plain(U32)
    case Fixed => Plain(FixedPoint)
    case String => if a.nullable then Optional(Plain(Text)) else Plain(Text)
    case Array => Plain(Bytes)
    case Fd => Plain(FileHandle)
    case Object => if a.nullable then Optional(Plain(Id)) else Plain(Id)
    case NewId => if a.interface.Some? then Plain(Id) else Plain(NewIdHandle)
  }

  /** `Arg::send_ty`: the parameter type of an event method. It is the owned
      type with strings, arrays, file descriptors and unpinned new-ids lent. */
  function SendTy(a: Arg): (t: TypeRep)
    ensures t == Lend(Ty(a))
  {
    match a.ty
    case Int => Plain(I32)
    case Uint => Plain(U32)
    case Fixed => Plain(FixedPoint)
    case String => if a.nullable then Optional(Borrowed(Text)) else Borrowed(Text)
    case Array => Borrowed(Bytes)
    case Fd => Borrowed(FileHandle)
    case Object => if a.nullable then Optional(Plain(Id)) else Plain(Id)
    case NewId => if a.interface.Some? then Plain(Id) else Borrowed(NewIdHandle)
  }

  // ---------------------------------------------------------------------------
  // Properties of the type mapper
  // ---------------------------------------------------------------------------

  /** The four artifacts of an argument, to compare arguments by. */
  datatype Artifacts = Artifacts(read: ReadOp, write: WriteOp, owned: TypeRep, send: TypeRep)

  function ArtifactsOf(a: Arg): Artifacts {
    Artifacts(Getter(a), Sender(a), Ty(a), SendTy(a))
  }

  /** A new-id with a pinned interface is handled exactly like a non-null
      object, whatever its own nullable flag says. */
  lemma PinnedNewIdIsNonNullObject(a: Arg)
    requires a.ty == NewId && a.interface.Some?
    ensures ArtifactsOf(a) == ArtifactsOf(a.(ty := Object, nullable := false))
    ensures ArtifactsOf(a).read == ReadObject(true)
  {
  }

  /** The nullable flag of a new-id is never consulted: a pinned one always
      unwraps, an unpinned one always uses the new-id descriptor. */
  lemma NewIdIgnoresNullable(a: Arg, nullable: bool)
    requires a.ty == NewId
    ensures ArtifactsOf(a) == ArtifactsOf(a.(nullable := nullable))
    ensures a.interface.None? ==> Getter(a) == ReadNewId && Sender(a) == SendNewId
  {
  }

  /** For the fixed-shape types, neither the nullable flag nor the pinned
      interface changes any artifact. */
  lemma FixedShapeTypesIgnoreFlags(a: Arg, b: Arg)
    requires a.ty == b.ty && a.ty in {Int, Uint, Fixed, Array, Fd}
    ensures ArtifactsOf(a) == ArtifactsOf(b)
  {
  }

  /** Nullability changes the artifacts of a string or an object, and only
      of those two types. */
  lemma NullabilityMattersOnlyForStringAndObject(a: Arg)
    ensures ArtifactsOf(a) != ArtifactsOf(a.(nullable := !a.nullable))
        <==> a.ty in {String, Object}
  {
  }
}
