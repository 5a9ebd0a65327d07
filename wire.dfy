/** The abstract meaning of the read and write operations the type mapper
    chooses. The message cursor and the message stream are collaborators whose
    byte layout is not part of this model: one wire item stands for one encoded
    argument, tagged with its wire form. */
module Wire {
  import opened Base
  import opened Proto

  /** A value as the generated Rust code holds it: the argument of an event
      method or the decoded argument passed to a request handler. Borrowed and
      owned forms hold the same value. */
  datatype Value =
    | IntV(i: int)
    | UintV(u: int)
    | FixedV(raw: int)
    | StrV(s: string)
    | BytesV(bytes: seq<byte>)
    | FileV(fd: nat)
    | IdV(id: int)
    | NewIdV(interface: string, version: int, id: int)
    | NoneV
    | SomeV(inner: Value)

  /** One encoded argument on the wire. Strings and object ids carry their own
      absence; a new-id descriptor carries interface name and version inline. */
  datatype WireItem =
    | WInt(i: i32)
    | WUint(u: u32)
    | WFixed(raw: i32)
    | WString(text: Option<string>)
    | WArray(bytes: seq<byte>)
    | WFd(fd: nat)
    | WObject(objectId: Option<u32>)
    | WNewId(interface: string, version: u32, id: u32)

  /** Errors of the generated code: the three constants it names, the
      collaborator's failure to decode a wire item of the expected form, and
      the stream's failure to send or commit. */
  datatype WlError = Internal | InvalidOpcode | NonNullable | Malformed | Transport

  predicate Absent(w: WireItem) {
    (w.WString? && w.text.None?) || (w.WObject? && w.objectId.None?)
  }

  predicate HasBase(v: Value, b: BaseType) {
    match b
    case I32 => v.IntV? && -0x8000_0000 <= v.i < 0x8000_0000
    case U32 => v.UintV? && 0 <= v.u < 0x1_0000_0000
    case FixedPoint => v.FixedV? && -0x8000_0000 <= v.raw < 0x8000_0000
    case Text => v.StrV?
    case Bytes => v.BytesV?
    case FileHandle => v.FileV?
    case Id => v.IdV? && 0 <= v.id < 0x1_0000_0000
    case NewIdHandle =>
      v.NewIdV? && 0 <= v.version < 0x1_0000_0000 && 0 <= v.id < 0x1_0000_0000
  }

  /** The values of a Rust type: `Option<T>` holds `None` or `Some` of a `T`. */
  predicate HasType(v: Value, t: TypeRep) {
    match t
    case Plain(b) => HasBase(v, b)
    case Borrowed(b) => HasBase(v, b)
    case Optional(inner) => v.NoneV? || (v.SomeV? && HasType(v.inner, inner))
  }

  /** Lending a type (owned to borrowed) does not change the values it holds. */
  lemma {:induction false} LendKeepsValues(v: Value, t: TypeRep)
    ensures HasType(v, Lend(t)) <==> HasType(v, t)
  {
    match t
    case Plain(_) =>
    case Borrowed(_) =>
    case Optional(inner) =>
      if v.SomeV? {
        LendKeepsValues(v.inner, inner);
      }
  }

  /** An event argument and a request argument declared alike accept the same
      values: the send type differs from the owned type only by borrowing. */
  lemma SendTypeHoldsOwnedValues(a: Arg, v: Value)
    ensures HasType(v, SendTy(a)) <==> HasType(v, Ty(a))
  {
    LendKeepsValues(v, Ty(a));
  }

  function OptionalString(o: Option<string>): Value {
    match o
    case None => NoneV
    case Some(s) => SomeV(StrV(s))
  }

  function OptionalId(o: Option<u32>): Value {
    match o
    case None => NoneV
    case Some(id) => SomeV(IdV(id))
  }

  /** One read on the message cursor. A wire item of another form is the
      cursor's own failure; an absent string or object under `unwrap` fails
      with `NON_NULLABLE`. */
  function Read(op: ReadOp, w: WireItem): (r: Result<Value, WlError>)
    ensures r == Err(NonNullable) <==>
              (op == ReadString(true) || op == ReadObject(true)) && Absent(w) &&
              (op.ReadString? <==> w.WString?)
  {
    match (op, w)
    case (ReadI32, WInt(i)) => Ok(IntV(i))
    case (ReadU32, WUint(u)) => Ok(UintV(u))
    case (ReadFixed, WFixed(raw)) => Ok(FixedV(raw))
    case (ReadString(unwrap), WString(text)) =>
      if !unwrap then Ok(OptionalString(text))
      else if text.None? then Err(NonNullable)
      else Ok(StrV(text.value))
    case (ReadBytes, WArray(bytes)) => Ok(BytesV(bytes))
    case (ReadFile, WFd(fd)) => Ok(FileV(fd))
    case (ReadObject(unwrap), WObject(objectId)) =>
      if !unwrap then Ok(OptionalId(objectId))
      else if objectId.None? then Err(NonNullable)
      else Ok(IdV(objectId.value))
    case (ReadNewId, WNewId(interface, version, id)) => Ok(NewIdV(interface, version, id))
    case _ => Err(Malformed)
  }

  /** One write on the message stream, or `None` for a value the writer's
      Rust signature does not accept (code that would not compile). Under
      `wrapSome` the value is sent as `Some(value)`. */
  function Write(op: WriteOp, v: Value): (r: Option<WireItem>)
    ensures r.Some? && (op == SendString(true) || op == SendObject(true)) ==> !Absent(r.value)
  {
    match op
    case SendI32 =>
      if v.IntV? && -0x8000_0000 <= v.i < 0x8000_0000 then Some(WInt(v.i)) else None
    case SendU32 =>
      if v.UintV? && 0 <= v.u < 0x1_0000_0000 then Some(WUint(v.u)) else None
    case SendFixed =>
      if v.FixedV? && -0x8000_0000 <= v.raw < 0x8000_0000 then Some(WFixed(v.raw)) else None
    case SendString(wrapSome) =>
      if wrapSome then
        if v.StrV? then Some(WString(Some(v.s))) else None
      else if v.NoneV? then Some(WString(None))
      else if v.SomeV? && v.inner.StrV? then Some(WString(Some(v.inner.s)))
      else None
    case SendBytes => if v.BytesV? then Some(WArray(v.bytes)) else None
    case SendFile => if v.FileV? then Some(WFd(v.fd)) else None
    case SendObject(wrapSome) =>
      if wrapSome then
        if v.IdV? && 0 <= v.id < 0x1_0000_0000 then Some(WObject(Some(v.id))) else None
      else if v.NoneV? then Some(WObject(None))
      else if v.SomeV? && v.inner.IdV? && 0 <= v.inner.id < 0x1_0000_0000 then
        Some(WObject(Some(v.inner.id)))
      else None
    case SendNewId =>
      if v.NewIdV? && 0 <= v.version < 0x1_0000_0000 && 0 <= v.id < 0x1_0000_0000 then
        Some(WNewId(v.interface, v.version, v.id))
      else None
  }

  /** Per-value round trip: a value of an argument's send type is accepted by
      the argument's sender, and the argument's getter reads the same value back
      from what was written. */
  lemma ReadAfterWrite(a: Arg, v: Value)
    requires HasType(v, SendTy(a))
    ensures Write(Sender(a), v).Some?
    ensures Read(Getter(a), Write(Sender(a), v).value) == Ok(v)
  {
  }

  /** Every value the getter of an argument produces has the argument's owned
      type, so the decoded value fits the request handler's parameter. */
  lemma GetterYieldsOwnedType(a: Arg, w: WireItem)
    requires Read(Getter(a), w).Ok?
    ensures HasType(Read(Getter(a), w).value, Ty(a))
  {
  }

  /** A non-null string or object, or a pinned new-id, fails to decode with
      `NON_NULLABLE` exactly when the wire holds an absent value of its form. */
  lemma RequiredArgFailsIffAbsent(a: Arg, w: WireItem)
    requires (a.ty in {String, Object} && !a.nullable) || (a.ty == NewId && a.interface.Some?)
    ensures Read(Getter(a), w) == Err(NonNullable) <==>
              Absent(w) && (w.WString? <==> a.ty == String)
  {
  }

  /** A nullable string or object decodes absence to `None`, without failing. */
  lemma NullableArgAcceptsAbsence(a: Arg, w: WireItem)
    requires a.ty in {String, Object} && a.nullable
    requires Absent(w) && (w.WString? <==> a.ty == String)
    ensures Read(Getter(a), w) == Ok(NoneV)
  {
  }

  /** What a non-null string or object (or a pinned new-id) sends is always
      present, so the receiving getter never raises `NON_NULLABLE` on it. */
  lemma RequiredArgSendsPresent(a: Arg, v: Value)
    requires (a.ty in {String, Object} && !a.nullable) || (a.ty == NewId && a.interface.Some?)
    requires HasType(v, SendTy(a))
    ensures Write(Sender(a), v).Some? && !Absent(Write(Sender(a), v).value)
    ensures Read(Getter(a), Write(Sender(a), v).value) != Err(NonNullable)
  {
  }
}
