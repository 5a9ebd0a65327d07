/** What the emitted code does, stated over the emitter's output: opcodes are
    declaration indexes, the dispatch match decodes request k for opcode k and
    rejects every other opcode, event bodies start, send and commit, what an
    event sends a request with the same arguments decodes unchanged, and enum
    constants and their `Debug` rendering follow the entries. */
module Properties {
  import opened Base
  import opened Proto
  import opened Wire
  import opened Emit
  import opened Generated

  /** The values an event method with these arguments accepts. */
  predicate Accepts(args: seq<Arg>, values: seq<Value>) {
    |values| == |args| && forall k :: 0 <= k < |args| ==> HasType(values[k], SendTy(args[k]))
  }

  /** The wire items the senders of these arguments write for these values. */
  function Encode(args: seq<Arg>, values: seq<Value>): (items: seq<WireItem>)
    requires Accepts(args, values)
    ensures |items| == |args|
    ensures forall k :: 0 <= k < |args| ==> Write(Sender(args[k]), values[k]) == Some(items[k])
  {
    assert forall k :: 0 <= k < |args| ==> Write(Sender(args[k]), values[k]).Some? by {
      forall k | 0 <= k < |args| {
        ReadAfterWrite(args[k], values[k]);
      }
    }
    seq(|args|, k requires 0 <= k < |args| => Write(Sender(args[k]), values[k]).value)
  }

  /** The dispatch outcome of a decoded (or failed) argument list. */
  function Deliver(handler: string, decoded: Result<seq<Value>, WlError>): Outcome {
    match decoded
    case Ok(values) => Invoked(handler, values)
    case Err(e) => Failed(e)
  }

  // ---------------------------------------------------------------------------
  // Opcodes
  // ---------------------------------------------------------------------------

  /** The opcode of request k and of event k is k, and the arm for opcode k
      calls the handler of request k. */
  lemma OpcodesAreDeclarationIndexes(naming: Naming, i: Interface)
    requires EmitInterface(naming, i).Ok?
    ensures forall k :: 0 <= k < |i.requests| ==>
              EmitInterface(naming, i).value.arms[k].opcode == k &&
              EmitInterface(naming, i).value.arms[k].handler == naming.snake(i.requests[k].name) &&
              EmitInterface(naming, i).value.arms[k].getters == Getters(i.requests[k].args)
    ensures forall k :: 0 <= k < |i.events| ==>
              EmitInterface(naming, i).value.events[k].body[0] == StartMessage(k)
  {
    var code := EmitInterface(naming, i).value;
    forall k | 0 <= k < |i.requests|
      ensures code.arms[k].getters == Getters(i.requests[k].args)
    {
      assert code.arms[k] == EmitArm(naming, i.requests[k], k);
    }
  }

  /** Appending a request keeps the opcode, handler and getters of every
      earlier request: schema evolution by appending is wire compatible. */
  lemma AppendingRequestKeepsArms(naming: Naming, i: Interface, r: Request)
    requires EmitInterface(naming, i.(requests := i.requests + [r])).Ok?
    ensures EmitInterface(naming, i).Ok?
    ensures EmitInterface(naming, i.(requests := i.requests + [r])).value.arms
            == EmitInterface(naming, i).value.arms + [EmitArm(naming, r, |i.requests|)]
  {
    var before := EmitInterface(naming, i).value;
    var after := EmitInterface(naming, i.(requests := i.requests + [r])).value;
    assert |after.arms| == |before.arms| + 1;
    forall k | 0 <= k < |after.arms|
      ensures after.arms[k] == (before.arms + [EmitArm(naming, r, |i.requests|)])[k]
    {
      if k < |i.requests| {
        assert (i.requests + [r])[k] == i.requests[k];
      }
    }
  }

  /** Appending an event keeps the body, and so the opcode, of every earlier
      event. */
  lemma AppendingEventKeepsBodies(naming: Naming, i: Interface, e: Event)
    requires EmitInterface(naming, i.(events := i.events + [e])).Ok?
    ensures EmitInterface(naming, i).Ok?
    ensures EmitInterface(naming, i.(events := i.events + [e])).value.events
            == EmitInterface(naming, i).value.events + [EmitEvent(naming, e, |i.events|)]
  {
    var before := EmitInterface(naming, i).value;
    var after := EmitInterface(naming, i.(events := i.events + [e])).value;
    assert |after.events| == |before.events| + 1;
    forall k | 0 <= k < |after.events|
      ensures after.events[k] == (before.events + [EmitEvent(naming, e, |i.events|)])[k]
    {
      if k < |i.events| {
        assert (i.events + [e])[k] == i.events[k];
      }
    }
  }

  // ---------------------------------------------------------------------------
  // Dispatch
  // ---------------------------------------------------------------------------

  /** The emitted dispatch: a failed downcast is `INTERNAL` whatever the
      message; opcode k below the request count decodes request k's arguments
      with their getters and calls its handler; any other opcode is
      `INVALID_OPCODE`. */
  lemma EmittedDispatch(naming: Naming, i: Interface, downcastOk: bool, msg: Message)
    requires EmitInterface(naming, i).Ok?
    ensures !downcastOk ==> Dispatch(EmitInterface(naming, i).value.arms, downcastOk, msg) == Failed(Internal)
    ensures downcastOk && msg.opcode >= |i.requests| ==>
              Dispatch(EmitInterface(naming, i).value.arms, downcastOk, msg) == Failed(InvalidOpcode)
    ensures downcastOk && msg.opcode < |i.requests| ==>
              Dispatch(EmitInterface(naming, i).value.arms, downcastOk, msg) ==
              Deliver(naming.snake(i.requests[msg.opcode].name),
                      DecodeArgs(Getters(i.requests[msg.opcode].args), msg.args))
  {
    var arms := EmitInterface(naming, i).value.arms;
    OpcodesAreDeclarationIndexes(naming, i);
    if downcastOk && msg.opcode < |i.requests| {
      var s := SelectArm(arms, msg.opcode);
      assert arms[msg.opcode].opcode == msg.opcode;
      assert s == Some(msg.opcode);
    }
  }

  /** Decoded arguments have the types of the handler's parameters. */
  lemma DecodedArgsFitHandler(naming: Naming, r: Request, cursor: seq<WireItem>)
    requires DecodeArgs(Getters(r.args), cursor).Ok?
    ensures forall k :: 0 <= k < |r.args| ==>
              HasType(DecodeArgs(Getters(r.args), cursor).value[k], EmitRequest(naming, r).params[k].ty)
  {
    var values := DecodeArgs(Getters(r.args), cursor).value;
    forall k | 0 <= k < |r.args|
      ensures HasType(values[k], EmitRequest(naming, r).params[k].ty)
    {
      GetterYieldsOwnedType(r.args[k], cursor[k]);
    }
  }

  // ---------------------------------------------------------------------------
  // Round trip
  // ---------------------------------------------------------------------------

  /** What the senders of an argument list write, the getters of the same list
      read back unchanged, whatever follows on the cursor. */
  lemma EncodeThenDecode(args: seq<Arg>, values: seq<Value>, rest: seq<WireItem>)
    requires Accepts(args, values)
    ensures DecodeArgs(Getters(args), Encode(args, values) + rest) == Ok(values)
  {
    var cursor := Encode(args, values) + rest;
    forall k | 0 <= k < |args|
      ensures Read(Getters(args)[k], cursor[k]) == Ok(values[k])
    {
      ReadAfterWrite(args[k], values[k]);
    }
    var decoded := DecodeArgs(Getters(args), cursor);
    assert decoded.Ok?;
    assert decoded.value == values;
  }

  // ---------------------------------------------------------------------------
  // Event bodies
  // ---------------------------------------------------------------------------

  /** The outcome of the sends at positions `from..` followed by the commit:
      the first failing call, or the pending message with every item added. */
  function SendsOutcome(fault: Fault, from: nat, count: nat, m: Message, items: seq<WireItem>): Result<Option<Message>, WlError> {
    if (fault.FailSend? && from <= fault.index < count) || fault == FailCommit then Err(Transport)
    else Ok(Some(m.(args := items)))
  }

  /** The sends of `ops[from..]` followed by the commit, run with message `m`
      pending and `items[..from]` already in it: a failing send or commit
      returns at once, otherwise the message is committed with every written
      item appended in order. */
  lemma {:induction false} RunSendsThenCommit(ops: seq<WriteOp>, values: seq<Value>, items: seq<WireItem>, from: nat,
                                              steps: seq<EventStep>, objectId: u32, fault: Fault, m: Message)
    requires |ops| == |values| == |items| && from <= |ops|
    requires forall k :: from <= k < |ops| ==> Write(ops[k], values[k]) == Some(items[k])
    requires |steps| == |ops| - from + 1 && steps[|steps| - 1] == Commit
    requires forall k :: from <= k < |ops| ==> steps[k - from] == Send(ops[k])
    requires m.args == items[..from]
    ensures Run(steps, objectId, values[from..], fault, from, Some(m)) == SendsOutcome(fault, from, |ops|, m, items)
    decreases |ops| - from
  {
    if from == |ops| {
      assert items[..from] == items;
    } else {
      assert steps[0] == Send(ops[from]);
      assert values[from..][0] == values[from];
    }
    if from < |ops| && fault != FailSend(from) {
      assert values[from..][1..] == values[from + 1..];
      assert items[..from + 1] == items[..from] + [items[from]];
      var m' := m.(args := m.args + [items[from]]);
      RunSendsThenCommit(ops, values, items, from + 1, steps[1..], objectId, fault, m');
    }
  }

  /** The emitted event body, run against the message stream: with no failure
      it commits one message addressed to the object, carrying the event's
      opcode and its arguments encoded in declared order; the first failing
      send, or a failing commit, is returned and nothing is committed. */
  lemma EmittedEventBody(naming: Naming, e: Event, opcode: u16, objectId: u32, values: seq<Value>, fault: Fault)
    requires Accepts(e.args, values)
    ensures fault == NoFault || (fault.FailSend? && fault.index >= |e.args|) ==>
              RunEvent(EmitEvent(naming, e, opcode).body, objectId, values, fault) ==
              Ok(Some(Message(objectId, opcode, Encode(e.args, values))))
    ensures fault.FailSend? && fault.index < |e.args| ==>
              RunEvent(EmitEvent(naming, e, opcode).body, objectId, values, fault) == Err(Transport)
    ensures fault == FailCommit ==>
              RunEvent(EmitEvent(naming, e, opcode).body, objectId, values, fault) == Err(Transport)
  {
    var body := EmitEvent(naming, e, opcode).body;
    var ops := Senders(e.args);
    var items := Encode(e.args, values);
    assert values[0..] == values;
    assert items[..0] == [];
    RunSendsThenCommit(ops, values, items, 0, body[1..], objectId, fault, Message(objectId, opcode, []));
  }

  /** End to end: when request k and event k declare the same arguments, the
      message event k sends is dispatched to request k's handler with exactly
      the values that were sent. */
  lemma EventThenDispatchRoundTrip(naming: Naming, i: Interface, k: nat, objectId: u32, values: seq<Value>)
    requires EmitInterface(naming, i).Ok?
    requires k < |i.requests| && k < |i.events| && i.requests[k].args == i.events[k].args
    requires Accepts(i.events[k].args, values)
    ensures RunEvent(EmitInterface(naming, i).value.events[k].body, objectId, values, NoFault) ==
            Ok(Some(Message(objectId, k, Encode(i.events[k].args, values))))
    ensures Dispatch(EmitInterface(naming, i).value.arms, true, Message(objectId, k, Encode(i.events[k].args, values)))
            == Invoked(naming.snake(i.requests[k].name), values)
  {
    var msg := Message(objectId, k, Encode(i.events[k].args, values));
    EmittedEventBody(naming, i.events[k], k, objectId, values, NoFault);
    EmittedDispatch(naming, i, true, msg);
    EncodeThenDecode(i.events[k].args, values, []);
    assert Encode(i.events[k].args, values) + [] == Encode(i.events[k].args, values);
  }

  // ---------------------------------------------------------------------------
  // Enums
  // ---------------------------------------------------------------------------

  /** Constant naming: an entry whose name starts with a numeric character is
      prefixed with the enum's name; the `Debug` arm uses the same name. */
  lemma EnumConstantNaming(naming: Naming, e: Enum, k: nat)
    requires k < |e.entries|
    ensures StartsNumeric(naming, e.entries[k].name) ==>
              EmitEnum(naming, e).constants[k].ident == naming.shouty(e.name + "_" + e.entries[k].name)
    ensures !StartsNumeric(naming, e.entries[k].name) ==>
              EmitEnum(naming, e).constants[k].ident == naming.shouty(e.entries[k].name)
    ensures EmitEnum(naming, e).debugArms[k].name == EmitEnum(naming, e).constants[k].ident
  {
  }

  /** The entry `180` of enum `transform` becomes the constant named by the
      constant-style conversion of `transform_180`. */
  lemma DigitEntryExample(naming: Naming)
    requires naming.isNumeric('1')
    ensures ConstName(naming, "transform", "180") == naming.shouty("transform_180")
  {
    assert "180"[0] == '1';
    assert "transform" + "_" + "180" == "transform_180";
  }

  /** The generated `Debug` renders a value as the constant name of the first
      entry that has it, in declaration order. */
  lemma DebugNamesFirstEntry(naming: Naming, e: Enum, v: u32, k: nat)
    requires k < |e.entries| && e.entries[k].value == v
    requires forall j :: 0 <= j < k ==> e.entries[j].value != v
    ensures Render(EmitEnum(naming, e).debugArms, IntoU32(FromU32(v))) ==
            ConstName(naming, e.name, e.entries[k].name) + "(" + Decimal(v) + ")"
  {
    RenderFirstMatch(EmitEnum(naming, e).debugArms, v, k);
  }

  /** The generated `Debug` renders a value no entry has as `UNKNOWN(v)`. */
  lemma DebugUnknownValue(naming: Naming, e: Enum, v: u32)
    requires forall j :: 0 <= j < |e.entries| ==> e.entries[j].value != v
    ensures Render(EmitEnum(naming, e).debugArms, IntoU32(FromU32(v))) == "UNKNOWN(" + Decimal(v) + ")"
  {
    RenderUnknown(EmitEnum(naming, e).debugArms, v);
  }

  // ---------------------------------------------------------------------------
  // Trait constants and registration
  // ---------------------------------------------------------------------------

  /** `INTERFACE` is the schema name as written (not case-converted) and
      `VERSION` the schema version; `into_object` registers with them and
      `into_versioned_object` with the caller's version. */
  lemma RegistrationUsesTraitConstants(naming: Naming, i: Interface, id: u32, version: u32)
    requires EmitInterface(naming, i).Ok?
    ensures IntoObject(EmitInterface(naming, i).value, id) ==
            Resident(id, EmitInterface(naming, i).value.arms, i.name, i.version)
    ensures IntoVersionedObject(EmitInterface(naming, i).value, id, version) ==
            Resident(id, EmitInterface(naming, i).value.arms, i.name, version)
  {
  }

  /** The greeter example: interface `greeter` version 1 with request
      `hello(name: string)` and event `greeting(text: string)`, both non-null. */
  lemma GreeterExample(naming: Naming)
    ensures var hello := Request("hello", None, false, None, None, [Arg("name", false, String, None, None, None)]);
            var greeting := Event("greeting", None, None, None, [Arg("text", false, String, None, None, None)]);
            var code := EmitInterface(naming, Interface("greeter", None, None, 1, [], [hello], [greeting]));
            && code.Ok?
            && code.value.interfaceName == "greeter" && code.value.version == 1
            && code.value.arms == [DispatchArm(0, naming.snake("hello"), [ReadString(true)])]
            && code.value.events[0].body == [StartMessage(0), Send(SendString(true)), Commit]
  {
    var hello := Request("hello", None, false, None, None, [Arg("name", false, String, None, None, None)]);
    var greeting := Event("greeting", None, None, None, [Arg("text", false, String, None, None, None)]);
    var code := EmitInterface(naming, Interface("greeter", None, None, 1, [], [hello], [greeting])).value;
    assert code.arms[0] == EmitArm(naming, hello, 0);
    assert EmitArm(naming, hello, 0).getters == [ReadString(true)];
    assert code.events[0] == EmitEvent(naming, greeting, 0);
  }
}
