# wl-codegen schema-to-code core, in Dafny

This project models the core of `wl-codegen`, a compiler from a TOML protocol
description (interfaces with requests, events, enums and typed arguments) to
Rust code. The generated code dispatches and marshals messages of a Wayland-like
binary wire protocol. The model covers two parts:

- the **type mapper** (`Arg::getter`, `Arg::sender`, `Arg::ty`, `Arg::send_ty`).
  For each argument (wire data type, `allow-null` flag, pinned interface) it
  chooses a read on the message cursor, a write on the message stream, the owned
  handler parameter type and the event parameter type;
- the **code emitter** (`protocol`, `interface`, `enumeration`, `request`,
  `event`). Per interface it produces a trait with `INTERFACE` and `VERSION`
  constants, one handler per request, one default-bodied method per event, a
  dispatch `match` on the opcode, and a module of enum wrapper types.

Generated code is represented by the decisions it fixes, not by tokens:

- dispatch arms are (opcode, handler, getters);
- event bodies are statement lists (start message, send each argument, commit);
- enums are (constant name, value) lists plus `Debug` arms.

Module `Generated` gives that code its runtime meaning:

- `Dispatch` is the generated `dispatch` function;
- `RunEvent` is a generated event method run against the message stream;
- `Render` is the generated `Debug::fmt`;
- `FromU32`/`IntoU32` are the `From`/`Into` impls;
- `IntoObject` and `IntoVersionedObject` are the registration helpers.

Module `Wire` gives the cursor's read operations and the stream's write
operations an abstract meaning. One `WireItem` stands for one encoded argument.

Files and modules:

- `base.dfy` (`Base`): Option/Result and the `u16`/`u32`/`i32` ranges.
- `proto.dfy` (`Proto`): the protocol model, the schema defaults and the type mapper.
- `wire.dfy` (`Wire`): values, wire items, the read/write meaning and the per-value round trip.
- `emit.dfy` (`Emit`): the generated code as data and the emitter functions.
- `generated.dfy` (`Generated`): the runtime meaning of the generated code.
- `properties.dfy` (`Properties`): lemmas about the emitter's output.

The identifier-case conversions of the `heck` crate and Rust's
`char::is_numeric` are a parameter (`Emit.Naming`). Every result holds for any
choice of them, under each lemma's stated hypotheses.

Details of the code's behaviour that the model keeps:

- The opcode panic happens when an opcode index does not fit in `u16`. That
  means more than 65536 requests or more than 65536 events; exactly 65536 is
  accepted. The failure is a panic in `try_into().unwrap()`, modelled as
  `Err(OpcodeOverflow)`. (Emission can also panic on a name that is not an
  identifier; see "Left out".)
- The digit-prefix rule for enum constants tests the first character with
  `char::is_numeric` (any Unicode numeric character), not only ASCII digits.
- A missing non-null string or object fails with the generated code's
  `NON_NULLABLE` constant (`Wire.NonNullable`). This is the "missing required
  argument" error.

## Model

| member | source | states |
|---|---|---|
| `Proto.ArgFromSchema` | src/proto.rs:94-105 | an absent `allow-null` means not nullable; a present one is kept; name, type, pinned interface, enum and summary are carried over |
| `Proto.ArgsFromSchema` | src/proto.rs:75-76 | an absent `arg` list is empty; otherwise every argument is converted in order |
| `Proto.EnumFromSchema` | src/proto.rs:55-56 | an absent `entry` list is empty; otherwise the entries are kept |
| `Proto.RequestFromSchema` | src/proto.rs:58-68 | an absent `destructor` is false and a present one is kept; an absent argument list is empty and a present one is converted argument by argument in order; name and `since` are kept |
| `Proto.EventFromSchema` | src/proto.rs:69-77 | an absent argument list is empty and a present one is converted argument by argument in order; name and `since` are kept |
| `Proto.InterfaceFromSchema` | src/proto.rs:35-47 | absent enum, request and event lists are empty; in a present list, element k is the conversion of schema element k; name and version are kept |
| `Proto.ProtocolFromSchema` | src/proto.rs:13-21 | an absent interface list is empty; in a present one, interface k is the conversion of schema interface k |
| `Proto.Getter` | src/proto.rs:107-130 | a string or object read unwraps (fails on absence) exactly when the owned type is not an `Option` |
| `Proto.Sender` | src/proto.rs:131-155 | the write op is always the counterpart of the argument's read op: i32/send_i32, u32/send_u32, fixed/send_fixed, string/send_string, bytes/send_bytes, file/send_file, object/send_object, new_id/send_new_id, with `Some`-wrapping exactly when unwrapping |
| `Proto.Ty` | src/proto.rs:156-179 | the owned type is `Option`-wrapped iff the type is String or Object and nullable, and never doubly wrapped |
| `Proto.SendTy` | src/proto.rs:180-203 | the send type is the owned type with String, Array, Fd and unpinned NewId borrowed and nothing else changed, so optionality is the same |
| `Proto.PinnedNewIdIsNonNullObject` | src/proto.rs:119-128 | a NewId with a pinned interface has the same read, write, owned and send artifacts as a non-null Object, and reads with unwrap |
| `Proto.NewIdIgnoresNullable` | src/proto.rs:124-128 | flipping `nullable` never changes a NewId's artifacts; an unpinned NewId always uses new_id/send_new_id |
| `Proto.FixedShapeTypesIgnoreFlags` | src/proto.rs:108-118 | for Int, Uint, Fixed, Array and Fd the four artifacts depend on neither `nullable` nor the pinned interface |
| `Proto.NullabilityMattersOnlyForStringAndObject` | src/proto.rs:112-123 | flipping `nullable` changes the artifacts iff the type is String or Object |
| `Wire.SendTypeHoldsOwnedValues` | src/proto.rs:156-203 | an argument's send type and owned type hold exactly the same values |
| `Wire.Read` | src/proto.rs:107-130 | a read fails with `NON_NULLABLE` iff it unwraps and the wire holds an absent string or object of its form |
| `Wire.Write` | src/proto.rs:131-155 | a `Some`-wrapping write of a string or object never puts an absent value on the wire |
| `Wire.ReadAfterWrite` | src/proto.rs:107-155 | for every argument and every value of its send type, the sender accepts the value and the getter reads the same value back |
| `Wire.GetterYieldsOwnedType` | src/proto.rs:107-179 | every value the getter decodes has the argument's owned type |
| `Wire.RequiredArgFailsIffAbsent` | src/proto.rs:112-128 | for a non-null String/Object or a pinned NewId, decoding fails with `NON_NULLABLE` iff the wire value of that form is absent |
| `Wire.NullableArgAcceptsAbsence` | src/proto.rs:112-123 | a nullable String/Object decodes an absent value to `None` without failing |
| `Wire.RequiredArgSendsPresent` | src/proto.rs:137-153 | a non-null String/Object or pinned NewId is sent present, and reading it back never gives `NON_NULLABLE` |
| `Emit.ConstSpelling` | src/lib.rs:143-146 | an entry name that does not start with a numeric char is kept; one that does becomes `enum + "_" + entry`, so the spelling starts with a numeric char only if `enum + "_"` does, and it always ends with the entry name |
| `Emit.ConstName` | src/lib.rs:143-146 | the constant is `Shouty(enum + "_" + entry)` when the entry name starts with a numeric char, otherwise `Shouty(entry)` |
| `Emit.EmitEnum` | src/lib.rs:128-206 | one constant per entry in order, named by the digit-prefix rule, and a `Debug` arm per entry with the same name and value |
| `Emit.EmitRequest` | src/lib.rs:208-254 | the handler is the snake-case request name with one owned-type parameter per argument in order; the arguments doc header appears iff some argument has a summary |
| `Emit.EmitEvent` | src/lib.rs:256-309 | parameters have the send types; the body is start_message(opcode), one sender per argument in declared order, then commit; the arguments doc header appears iff some argument has a summary |
| `Emit.EmitArm` | src/lib.rs:71-91 | the arm for a request has the given opcode, calls the request's snake-case handler and decodes each argument with its getter in declared order |
| `Emit.EmitInterface` | src/lib.rs:55-126 | emission succeeds iff there are at most 65536 requests and 65536 events; INTERFACE is the unconverted name and VERSION the version; arm k and event k are emitted with opcode k |
| `Emit.EmitInterfaces` | src/lib.rs:42 | every interface is emitted in order, and the traversal fails iff some interface fails |
| `Emit.EmitProtocol` | src/lib.rs:32-53 | the output has the title header, and trait k is interface k's trait; succeeds iff every interface does |
| `Emit.Compile` | src/lib.rs:32-42 | after the schema defaults, compilation succeeds iff every declared interface has at most 65536 requests and 65536 events; the header is the title-cased name, and trait k is the trait of schema interface k; no interface list gives the header alone |
| `Generated.DecodeArgs` | src/lib.rs:76-80 | decoding succeeds iff there are enough items and every read succeeds; each value is what its read gives; a failure is the error of the first failing read (`NON_NULLABLE` or the cursor's own error), or `Malformed` when the items run out first, with every earlier read succeeding |
| `Generated.SelectArm` | src/lib.rs:106-109 | the chosen arm is the first whose opcode equals the message opcode; none is chosen iff no arm has it |
| `Generated.Dispatch` | src/lib.rs:104-110 | a failed downcast gives `INTERNAL` before the opcode is looked at; `INVALID_OPCODE` iff no arm has the opcode; a call goes to a handler whose arm has the opcode, with one value per getter |
| `Generated.Run` | src/lib.rs:302-307 | an event run fails only with the stream's transport error or, for an ill-formed body, `Malformed`; never with a decode error; a message started on the object is committed with that object's id |
| `Generated.RunEvent` | src/lib.rs:302-307 | calling an event method fails only with the stream's error or `Malformed` for an ill-formed body or a value its send does not accept (an emitted body given accepted values fails only with the stream's error, by `Properties.EmittedEventBody`), and what it commits is addressed to the object the method was called on (`this.id()`) |
| `Generated.IntoU32` | src/lib.rs:192-196 | `Into<u32>` gives the wrapped value, which determines the wrapper: `From<u32>` of it is the same wrapper |
| `Generated.FromU32` | src/lib.rs:187-196 | `Into<u32>` of `From<u32>(v)` is `v`, for every value, known or not |
| `Generated.Decimal` | src/lib.rs:174 | the rendered number is a non-empty digit string whose decimal value is the number; it starts with `0` only when it is `"0"` |
| `Generated.Render` | src/lib.rs:197-204 | the output is `NAME(v)` for the first arm in declaration order whose value is `v`, or `UNKNOWN(v)` when no arm has it |
| `Generated.RenderFirstMatch` | src/lib.rs:197-204 | a value some arm has renders as `NAME(v)` for the first such arm in declaration order |
| `Generated.RenderUnknown` | src/lib.rs:199-201 | a value no arm has renders as `UNKNOWN(v)` |
| `Generated.IntoObject` | src/lib.rs:112-114 | `into_object` registers with the trait's interface name and `VERSION` |
| `Generated.IntoVersionedObject` | src/lib.rs:116-118 | `into_versioned_object` registers like `into_object` except that it uses the caller's version |
| `Properties.OpcodesAreDeclarationIndexes` | src/lib.rs:69-72 | arm k has opcode k and decodes and calls request k; event k starts its message with opcode k |
| `Properties.AppendingRequestKeepsArms` | src/lib.rs:71-72 | appending a request leaves every earlier dispatch arm unchanged and adds one with the next opcode |
| `Properties.AppendingEventKeepsBodies` | src/lib.rs:69 | appending an event leaves every earlier event method unchanged and adds one with the next opcode |
| `Properties.EmittedDispatch` | src/lib.rs:71-110 | failed downcast gives `INTERNAL`; an opcode at or past the request count gives `INVALID_OPCODE`; opcode k decodes request k's arguments with their getters and calls request k's handler, or returns the first decode failure |
| `Properties.DecodedArgsFitHandler` | src/lib.rs:76-89 | every decoded argument has the type of the corresponding handler parameter |
| `Properties.EncodeThenDecode` | src/lib.rs:76-80 | for any argument list, the getters read back exactly the values its senders wrote, whatever follows on the cursor |
| `Properties.RunSendsThenCommit` | src/lib.rs:303-306 | running the remaining sends and the commit returns the first failing call, or commits the pending message with every item appended in order |
| `Properties.EmittedEventBody` | src/lib.rs:302-307 | the event body commits one message (object id, opcode, arguments encoded in declared order); a failing send or commit is returned and nothing is committed |
| `Properties.EventThenDispatchRoundTrip` | src/lib.rs:69-91 | when request k and event k declare the same arguments, the message event k sends is dispatched to request k's handler with exactly the sent values |
| `Properties.EnumConstantNaming` | src/lib.rs:143-172 | an entry name starting with a numeric char gives `Shouty(enum + "_" + entry)`, otherwise `Shouty(entry)`; the `Debug` arm uses the same name |
| `Properties.DigitEntryExample` | src/lib.rs:144-146 | entry `180` of enum `transform` is named by the constant-style form of `transform_180` |
| `Properties.DebugNamesFirstEntry` | src/lib.rs:169-204 | `Debug` of a wrapped known value is the first matching entry's constant name and the value |
| `Properties.DebugUnknownValue` | src/lib.rs:197-204 | `Debug` of a wrapped value no entry has is `UNKNOWN(v)` |
| `Properties.RegistrationUsesTraitConstants` | src/lib.rs:100-118 | `into_object` registers with the schema name and version, `into_versioned_object` with the schema name and the given version |
| `Properties.GreeterExample` | src/lib.rs:55-126 | interface `greeter` v1 with `hello(name: string)` and `greeting(text: string)` gives INTERFACE "greeter", VERSION 1, one arm for opcode 0 reading a non-null string, and an event body start(0), send non-null string, commit |

## Left out

- Loading (`Protocol::load`, `Protocol::from_str`): file I/O and TOML parsing
  are foreign libraries. The model starts from the parsed schema (`Proto.SchemaProtocol`).
  It applies only the `#[serde(default)]` rules.
- The `Error` enum and its `From` impls: error plumbing for TOML and I/O failures
  of the loader. The `Utf8` variant is never constructed, because `read_to_string`
  reports bad UTF-8 as an I/O error.
- `heck` case conversion and `char::is_numeric`: a foreign crate and the Unicode
  tables. They are the uninterpreted parameter `Emit.Naming`.
- Token construction (`quote!`, `Ident::new_raw`) and the documentation attributes
  (since-version notes, title-cased summaries, descriptions, copyright header).
  Only the protocol title header and the presence of the "## Arguments" header are modelled.
- The runtime collaborators of the generated code: the message cursor, the
  message stream, `Lease::downcast`, `Resident::new` and `Client::stream`. They
  appear only as follows:
  - reads and writes of one abstract wire item per argument, with no byte
    layout and no out-of-band file descriptors;
  - a `downcastOk` flag;
  - a `Fault` input saying which send or commit the stream fails;
  - the recorded `Resident` fields.
  The user's handler bodies are represented only by the call (`Outcome.Invoked`).
- The `::yutani::wire::WlError` versus `::wl::wire::WlError` paths: a naming detail with no behaviour.
- `RequestType`: declared but used by no field, so it is never parsed.
- The `destructor` flag: parsed but never read by the emitter. Only the flag's
  parsing is modelled: absent means false, and a present value is kept.
- The `enum` association of an argument: parsed but never read by the emitter.
- Argument identifiers within one request or event are treated as distinct,
  and distinct from the fixed parameters of the generated method. Two cases
  make the generated Rust fail to compile, because a parameter is bound twice:
  two arguments with the same snake-case name, and an argument named like a
  fixed parameter (`this`, `client`, and `event_loop` for requests). The model
  still emits and runs such methods, with dispatch arms and event bodies
  modelled by position.
- Emit.EmitInterface, Emit.EmitEnum, Emit.EmitRequest, Emit.EmitEvent, Emit.EmitArm,
  Emit.EmitInterfaces, Emit.EmitProtocol, Emit.Compile: `Ident::new_raw` panics on a
  converted name that is not a Rust identifier (empty, starting with a digit, or one of
  `self`, `Self`, `super`, `crate`, `_`). This panic is not modelled: every converted
  name is taken to be a valid identifier, because the names come from the case
  conversions, which are an uninterpreted parameter here. The success conditions
  therefore cover only the opcode panic.
- Generated.Dispatch: the generated arm reads the arguments from the client's
  stream (`_client.stream()`) and uses the message only for its opcode. The model
  decodes from `msg.args`, so it takes the client's cursor to be positioned at the
  message's arguments.
- The build script `build.rs`: a build harness that only creates files, writes text and runs `rustfmt`.
- Generated.Run: an ill-formed statement list (a send or commit before any
  start, more sends than values, or a value its send does not accept) returns `Malformed`. Generated Rust has no
  such case, because it would not compile.
