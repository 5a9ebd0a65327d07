/** The code emitter (src/lib.rs): walks the protocol model once and produces,
    per interface, a trait with its name and version constants, one handler
    declaration per request, one default-bodied method per event, the dispatch
    match, and a module of enum wrapper types. Generated code is represented by
    the decisions it fixes, not by its tokens. */
module Emit {
  import opened Base
  import opened Proto

  /** The identifier-case conversions of the `heck` crate and Rust's
      `char::is_numeric`, which are not part of this model: the emitter is
      defined for any choice of them. */
  datatype Naming = Naming(
    pascal: string -> string,
    snake: string -> string,
    shouty: string -> string,
    title: string -> string,
    isNumeric: char -> bool)

  /** A parameter of a generated method: its identifier and its Rust type. */
  datatype Param = Param(ident: string, ty: TypeRep)

  /** `argumentsHeader` is the "## Arguments" doc section. */
  datatype RequestMethod = RequestMethod(ident: string, params: seq<Param>, argumentsHeader: bool)

  /** The statements of a generated event body. */
  datatype EventStep = StartMessage(opcode: u16) | Send(op: WriteOp) | Commit

  datatype EventMethod = EventMethod(
    ident: string,
    params: seq<Param>,
    argumentsHeader: bool,
    body: seq<EventStep>)

  /** One arm `opcode => { let a0 = getter0; ...; Self::handler(.., a0, ..) }`
      of the generated dispatch match. */
  datatype DispatchArm = DispatchArm(opcode: u16, handler: string, getters: seq<ReadOp>)

  /** `pub const IDENT: Self = Self(value);` */
  datatype EnumConstant = EnumConstant(ident: string, value: u32)

  /** `value => write!(f, "{}({})", name, value)` in the generated `Debug`. */
  datatype DebugArm = DebugArm(value: u32, name: string)

  datatype EnumCode = EnumCode(ident: string, constants: seq<EnumConstant>, debugArms: seq<DebugArm>)

  datatype TraitCode = TraitCode(
    ident: string,
    moduleIdent: string,
    interfaceName: string,
    version: u32,
    requests: seq<RequestMethod>,
    events: seq<EventMethod>,
    arms: seq<DispatchArm>,
    enums: seq<EnumCode>)

  datatype ProtocolCode = ProtocolCode(header: string, interfaces: seq<TraitCode>)

  /** The `try_into().unwrap()` of an opcode index that does not fit in `u16`. */
  datatype Panic = OpcodeOverflow

  /** `name.starts_with(char::is_numeric)`: false for the empty name. */
  predicate StartsNumeric(naming: Naming, name: string) {
    |name| > 0 && naming.isNumeric(name[0])
  }

  /** The spelling of an enum constant before the case conversion. An entry
      name that starts with a digit is not an identifier on its own, so it is
      prefixed with the enum's name and an underscore: the result then starts
      with a numeric character only if `enumName + "_"` does, and it always
      ends with the entry's name. */
  function ConstSpelling(naming: Naming, enumName: string, entryName: string): (r: string)
    ensures !StartsNumeric(naming, entryName) ==> r == entryName
    ensures StartsNumeric(naming, entryName) ==>
              |r| == |enumName| + 1 + |entryName| && r[..|enumName|] == enumName && r[|enumName|] == '_'
    ensures |r| >= |entryName| && r[|r| - |entryName|..] == entryName
    ensures StartsNumeric(naming, r) ==> StartsNumeric(naming, enumName + "_")
  {
    if StartsNumeric(naming, entryName) then
      var r := enumName + "_" + entryName;
      assert r[0] == (enumName + "_")[0];
      r
    else entryName
  }

  /** The identifier of an enum constant: the constant-case form of its
      spelling. */
  function ConstName(naming: Naming, enumName: string, entryName: string): (r: string)
    ensures StartsNumeric(naming, entryName) ==> r == naming.shouty(enumName + "_" + entryName)
    ensures !StartsNumeric(naming, entryName) ==> r == naming.shouty(entryName)
  {
    naming.shouty(ConstSpelling(naming, enumName, entryName))
  }

  /** Whether some argument has a summary, which is when the "## Arguments"
      doc header is emitted. */
  predicate HasArgSummary(args: seq<Arg>) {
    exists k :: 0 <= k < |args| && args[k].summary.Some?
  }

  /** The getters of an argument list, in declared order. */
  function Getters(args: seq<Arg>): (ops: seq<ReadOp>)
    ensures |ops| == |args| && forall k :: 0 <= k < |args| ==> ops[k] == Getter(args[k])
  {
    seq(|args|, k requires 0 <= k < |args| => Getter(args[k]))
  }

  /** The senders of an argument list, in declared order. */
  function Senders(args: seq<Arg>): (ops: seq<WriteOp>)
    ensures |ops| == |args| && forall k :: 0 <= k < |args| ==> ops[k] == Sender(args[k])
  {
    seq(|args|, k requires 0 <= k < |args| => Sender(args[k]))
  }

  /** `enumeration`: one constant per entry, in order, and a `Debug` arm per
      entry that uses the very same name and value. */
  function EmitEnum(naming: Naming, e: Enum): (c: EnumCode)
    ensures c.ident == naming.pascal(e.name)
    ensures |c.constants| == |c.debugArms| == |e.entries|
    ensures forall k :: 0 <= k < |e.entries| ==>
              c.constants[k] == EnumConstant(ConstName(naming, e.name, e.entries[k].name), e.entries[k].value)
    ensures forall k :: 0 <= k < |e.entries| ==>
              c.debugArms[k] == DebugArm(c.constants[k].value, c.constants[k].ident)
  {
    var entries := e.entries;
    EnumCode(
      naming.pascal(e.name),
      seq(|entries|, k requires 0 <= k < |entries| =>
        EnumConstant(ConstName(naming, e.name, entries[k].name), entries[k].value)),
      seq(|entries|, k requires 0 <= k < |entries| =>
        DebugArm(entries[k].value, ConstName(naming, e.name, entries[k].name))))
  }

  /** `request`: the handler declaration, one parameter of the owned type per
      argument in declared order. */
  function EmitRequest(naming: Naming, r: Request): (m: RequestMethod)
    ensures m.ident == naming.snake(r.name)
    ensures |m.params| == |r.args|
    ensures forall k :: 0 <= k < |r.args| ==> m.params[k] == Param(naming.snake(r.args[k].name), Ty(r.args[k]))
    ensures m.argumentsHeader <==> HasArgSummary(r.args)
  {
    var args := r.args;
    RequestMethod(
      naming.snake(r.name),
      seq(|args|, k requires 0 <= k < |args| => Param(naming.snake(args[k].name), Ty(args[k]))),
      HasArgSummary(args))
  }

  /** `event`: the event method, parameters of the send type, and a body that
      starts a message with its opcode, sends every argument in declared order
      and commits. */
  function EmitEvent(naming: Naming, e: Event, opcode: u16): (m: EventMethod)
    ensures m.ident == naming.snake(e.name)
    ensures |m.params| == |e.args|
    ensures forall k :: 0 <= k < |e.args| ==> m.params[k] == Param(naming.snake(e.args[k].name), SendTy(e.args[k]))
    ensures m.argumentsHeader <==> HasArgSummary(e.args)
    ensures |m.body| == |e.args| + 2
    ensures m.body[0] == StartMessage(opcode) && m.body[|m.body| - 1] == Commit
    ensures forall k :: 0 <= k < |e.args| ==> m.body[k + 1] == Send(Sender(e.args[k]))
  {
    var args, sends := e.args, Senders(e.args);
    EventMethod(
      naming.snake(e.name),
      seq(|args|, k requires 0 <= k < |args| => Param(naming.snake(args[k].name), SendTy(args[k]))),
      HasArgSummary(args),
      [StartMessage(opcode)] + seq(|sends|, k requires 0 <= k < |sends| => Send(sends[k])) + [Commit])
  }

  /** One arm of the dispatch match: decode each argument with its getter, in
      declared order, then call the handler named after the request. */
  function EmitArm(naming: Naming, r: Request, opcode: u16): (arm: DispatchArm)
    ensures arm.opcode == opcode && arm.handler == naming.snake(r.name)
    ensures |arm.getters| == |r.args|
    ensures forall k :: 0 <= k < |r.args| ==> arm.getters[k] == Getter(r.args[k])
  {
    DispatchArm(opcode, naming.snake(r.name), Getters(r.args))
  }

  /** `interface`: the trait of one interface. Opcodes are declaration
      indexes converted to `u16`; an index that does not fit panics, so
      emission succeeds exactly when there are at most 65536 requests and at
      most 65536 events. */
  function EmitInterface(naming: Naming, i: Interface): (r: Result<TraitCode, Panic>)
    ensures r.Ok? <==> |i.requests| <= 0x1_0000 && |i.events| <= 0x1_0000
    ensures r.Ok? ==> r.value.interfaceName == i.name && r.value.version == i.version
    ensures r.Ok? ==> r.value.ident == naming.pascal(i.name) && r.value.moduleIdent == naming.snake(i.name)
    ensures r.Ok? ==> |r.value.arms| == |r.value.requests| == |i.requests|
    ensures r.Ok? ==> |r.value.events| == |i.events| && |r.value.enums| == |i.enums|
    ensures r.Ok? ==> forall k :: 0 <= k < |i.requests| ==>
              r.value.arms[k] == EmitArm(naming, i.requests[k], k) &&
              r.value.requests[k] == EmitRequest(naming, i.requests[k])
    ensures r.Ok? ==> forall k :: 0 <= k < |i.events| ==>
              r.value.events[k] == EmitEvent(naming, i.events[k], k)
    ensures r.Ok? ==> forall k :: 0 <= k < |i.enums| ==> r.value.enums[k] == EmitEnum(naming, i.enums[k])
  {
    var requests, events, enums := i.requests, i.events, i.enums;
    if |requests| > 0x1_0000 || |events| > 0x1_0000 then Err(OpcodeOverflow)
    else
      Ok(TraitCode(
        naming.pascal(i.name),
        naming.snake(i.name),
        i.name,
        i.version,
        seq(|requests|, k requires 0 <= k < |requests| => EmitRequest(naming, requests[k])),
        seq(|events|, k requires 0 <= k < |events| => EmitEvent(naming, events[k], k)),
        seq(|requests|, k requires 0 <= k < |requests| => EmitArm(naming, requests[k], k)),
        seq(|enums|, k requires 0 <= k < |enums| => EmitEnum(naming, enums[k]))))
  }

  /** The traversal of all interfaces in order; the first panic aborts. */
  function EmitInterfaces(naming: Naming, interfaces: seq<Interface>): (r: Result<seq<TraitCode>, Panic>)
    ensures r.Ok? <==> forall k :: 0 <= k < |interfaces| ==> EmitInterface(naming, interfaces[k]).Ok?
    ensures r.Ok? ==> |r.value| == |interfaces|
    ensures r.Ok? ==> forall k :: 0 <= k < |interfaces| ==> Ok(r.value[k]) == EmitInterface(naming, interfaces[k])
  {
    if interfaces == [] then Ok([])
    else
      match EmitInterface(naming, interfaces[0])
      case Err(p) => Err(p)
      case Ok(first) =>
        match EmitInterfaces(naming, interfaces[1..])
        case Err(p) => Err(p)
        case Ok(rest) => Ok([first] + rest)
  }

  /** `protocol` after loading: the title header and every interface's trait. */
  function EmitProtocol(naming: Naming, p: Protocol): (r: Result<ProtocolCode, Panic>)
    ensures r.Ok? <==> forall k :: 0 <= k < |p.interfaces| ==> EmitInterface(naming, p.interfaces[k]).Ok?
    ensures r.Ok? ==> r.value.header == "# " + naming.title(p.name)
    ensures r.Ok? ==> |r.value.interfaces| == |p.interfaces|
    ensures r.Ok? ==> forall k :: 0 <= k < |p.interfaces| ==>
              Ok(r.value.interfaces[k]) == EmitInterface(naming, p.interfaces[k])
  {
    match EmitInterfaces(naming, p.interfaces)
    case Err(e) => Err(e)
    case Ok(interfaces) => Ok(ProtocolCode("# " + naming.title(p.name), interfaces))
  }

  /** The whole compiler after parsing: apply the schema defaults, then emit. */
  function Compile(naming: Naming, s: SchemaProtocol): (r: Result<ProtocolCode, Panic>)
    ensures s.interface.None? ==> r == Ok(ProtocolCode("# " + naming.title(s.name), []))
    ensures r.Ok? <==>
              (s.interface.None? ||
               forall k :: 0 <= k < |s.interface.value| ==>
                 |OrDefault(s.interface.value[k].request, [])| <= 0x1_0000 &&
                 |OrDefault(s.interface.value[k].event, [])| <= 0x1_0000)
    ensures r.Ok? ==> r.value.header == "# " + naming.title(s.name)
    ensures r.Ok? && s.interface.Some? ==> |r.value.interfaces| == |s.interface.value|
    ensures r.Ok? && s.interface.Some? ==> forall k :: 0 <= k < |s.interface.value| ==>
              Ok(r.value.interfaces[k]) == EmitInterface(naming, InterfaceFromSchema(s.interface.value[k]))
  {
    EmitProtocol(naming, ProtocolFromSchema(s))
  }
}
