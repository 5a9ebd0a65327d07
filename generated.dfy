/** What the generated code does when it runs: the dispatch match, the event
    bodies, the enum wrappers and their `Debug` rendering, and object
    registration. The message cursor, the message stream and the object lease
    are collaborators; they appear only as the read/write meaning in module
    Wire, a `downcastOk` flag, and a `Fault` saying which stream call fails. */
module Generated {
  import opened Base
  import opened Proto
  import opened Wire
  import opened Emit

  /** An incoming or committed message: the object it addresses, its opcode
      and its encoded arguments. */
  datatype Message = Message(objectId: u32, opcode: u16, args: seq<WireItem>)

  /** The result of a dispatch: the handler called with the decoded arguments,
      or the error returned before any handler ran. */
  datatype Outcome = Invoked(handler: string, args: seq<Value>) | Failed(error: WlError)

  // ---------------------------------------------------------------------------
  // Dispatch
  // ---------------------------------------------------------------------------

  /** The `let a_k = getter_k;` lines of an arm: each read consumes the next
      wire item, and the first failure is returned at once. Items left over
      after the last read are not looked at. */
  function DecodeArgs(getters: seq<ReadOp>, cursor: seq<WireItem>): (r: Result<seq<Value>, WlError>)
    ensures r.Ok? <==> |getters| <= |cursor| && forall k :: 0 <= k < |getters| ==> Read(getters[k], cursor[k]).Ok?
    ensures r.Ok? ==> |r.value| == |getters|
    ensures r.Ok? ==> forall k :: 0 <= k < |getters| ==> Read(getters[k], cursor[k]) == Ok(r.value[k])
    ensures r.Err? ==> r.error == NonNullable || r.error == Malformed
    ensures r.Err? ==> exists k :: FailsAt(getters, cursor, k, r.error)
    decreases getters
  {
    if getters == [] then Ok([])
    else if cursor == [] then
      assert FailsAt(getters, cursor, 0, Malformed);
      Err(Malformed)
    else
      match Read(getters[0], cursor[0])
      case Err(e) =>
        assert FailsAt(getters, cursor, 0, e);
        Err(e)
      case Ok(v) =>
        match DecodeArgs(getters[1..], cursor[1..])
        case Err(e) =>
          assert exists k :: FailsAt(getters, cursor, k, e) by {
            var k: nat :| FailsAt(getters[1..], cursor[1..], k, e);
            FailsAfterFirstRead(getters, cursor, k, e);
          }
          Err(e)
        case Ok(vs) => Ok([v] + vs)
  }

  /** Read `k` is the first that fails, with error `e`: every earlier read
      succeeds, and read `k` fails with `e`, or finds no item left, which is
      the cursor's `Malformed`. */
  predicate FailsAt(getters: seq<ReadOp>, cursor: seq<WireItem>, k: nat, e: WlError) {
    k < |getters| &&
    (forall j :: 0 <= j < k ==> j < |cursor| && Read(getters[j], cursor[j]).Ok?) &&
    (if k < |cursor| then Read(getters[k], cursor[k]) == Err(e) else e == Malformed)
  }

  /** A successful first read moves the first failure one place on. */
  lemma FailsAfterFirstRead(getters: seq<ReadOp>, cursor: seq<WireItem>, k: nat, e: WlError)
    requires |getters| > 0 && |cursor| > 0 && Read(getters[0], cursor[0]).Ok?
    requires FailsAt(getters[1..], cursor[1..], k, e)
    ensures FailsAt(getters, cursor, k + 1, e)
  {
    forall j | 0 <= j < k + 1
      ensures j < |cursor| && Read(getters[j], cursor[j]).Ok?
    {
      if j > 0 {
        assert getters[1..][j - 1] == getters[j] && cursor[1..][j - 1] == cursor[j];
      }
    }
    if k + 1 < |cursor| {
      assert getters[1..][k] == getters[k + 1] && cursor[1..][k] == cursor[k + 1];
    }
  }

  /** The arm a Rust `match` on the opcode takes: the first one whose literal
      equals the opcode, if any. */
  function SelectArm(arms: seq<DispatchArm>, opcode: int): (r: Option<nat>)
    ensures r.Some? ==> r.value < |arms| && arms[r.value].opcode == opcode
    ensures r.Some? ==> forall j :: 0 <= j < r.value ==> arms[j].opcode != opcode
    ensures r.None? <==> forall j :: 0 <= j < |arms| ==> arms[j].opcode != opcode
  {
    if arms == [] then None
    else if arms[0].opcode == opcode then Some(0)
    else
      match SelectArm(arms[1..], opcode)
      case None => None
      case Some(k) => Some(k + 1)
  }

  /** The generated `dispatch`: the downcast is checked first, then the
      opcode selects an arm, whose arguments are decoded and passed to its
      handler; an opcode with no arm is `INVALID_OPCODE`. */
  function Dispatch(arms: seq<DispatchArm>, downcastOk: bool, msg: Message): (r: Outcome)
    ensures !downcastOk ==> r == Failed(Internal)
    ensures r == Failed(InvalidOpcode) <==>
              downcastOk && forall j :: 0 <= j < |arms| ==> arms[j].opcode != msg.opcode
    ensures r.Invoked? ==>
              exists j :: 0 <= j < |arms| && arms[j].opcode == msg.opcode &&
                          r.handler == arms[j].handler && |r.args| == |arms[j].getters|
  {
    if !downcastOk then Failed(Internal)
    else
      match SelectArm(arms, msg.opcode)
      case None => Failed(InvalidOpcode)
      case Some(k) =>
        match DecodeArgs(arms[k].getters, msg.args)
        case Err(e) => Failed(e)
        case Ok(vs) => Invoked(arms[k].handler, vs)
  }

  // ---------------------------------------------------------------------------
  // Event bodies
  // ---------------------------------------------------------------------------

  /** Which call on the message stream fails, if any: the send with the given
      zero-based position, or the commit. */
  datatype Fault = NoFault | FailSend(index: nat) | FailCommit

  /** Runs the statements of an event body against the message stream.
      `pending` is the message started and not yet committed, `sent` the
      number of sends so far. The result is the committed message, if any; a
      failure returns at once and commits nothing. */
  function Run(steps: seq<EventStep>, objectId: u32, values: seq<Value>, fault: Fault,
               sent: nat, pending: Option<Message>): (r: Result<Option<Message>, WlError>)
    ensures r.Err? ==> r.error == Transport || r.error == Malformed
    ensures (pending.None? || pending.value.objectId == objectId) && r.Ok? && r.value.Some? ==>
              r.value.value.objectId == objectId
    decreases |steps|
  {
    if steps == [] then Ok(None)
    else
      match steps[0]
      case StartMessage(opcode) =>
        Run(steps[1..], objectId, values, fault, sent, Some(Message(objectId, opcode, [])))
      case Send(op) =>
        if pending.None? || values == [] then Err(Malformed)
        else if fault == FailSend(sent) then Err(Transport)
        else (
          match Write(op, values[0])
          case None => Err(Malformed)
          case Some(w) =>
            Run(steps[1..], objectId, values[1..], fault, sent + 1,
                Some(pending.value.(args := pending.value.args + [w]))))
      case Commit =>
        if pending.None? then Err(Malformed)
        else if fault == FailCommit then Err(Transport)
        else Ok(Some(pending.value))
  }

  /** A call of a generated event method on the object with id `objectId`. */
  function RunEvent(body: seq<EventStep>, objectId: u32, values: seq<Value>, fault: Fault): (r: Result<Option<Message>, WlError>)
    ensures r.Err? ==> r.error == Transport || r.error == Malformed
    ensures r.Ok? && r.value.Some? ==> r.value.value.objectId == objectId
  {
    Run(body, objectId, values, fault, 0, None)
  }

  // ---------------------------------------------------------------------------
  // Enum wrappers
  // ---------------------------------------------------------------------------

  /** A value of a generated enum wrapper `struct Name(u32)`. */
  datatype EnumValue = EnumValue(raw: u32)

  /** `Into<u32>`. */
  function IntoU32(w: EnumValue): (v: u32)
    ensures EnumValue(v) == w
  {
    w.raw
  }

  /** `From<u32>`: wrapping loses nothing; unknown values are kept as they are. */
  function FromU32(v: u32): (w: EnumValue)
    ensures IntoU32(w) == v
  {
    EnumValue(v)
  }

  /** The value of a string of decimal digits. */
  function DigitsValue(s: string): nat
    requires forall k :: 0 <= k < |s| ==> '0' <= s[k] <= '9'
  {
    if s == [] then 0 else 10 * DigitsValue(s[..|s| - 1]) + (s[|s| - 1] - '0') as nat
  }

  /** `u32`'s `Display`: decimal digits without leading zeros. */
  function Decimal(n: nat): (s: string)
    ensures |s| >= 1 && (s[0] == '0' ==> s == "0" && n == 0)
    ensures forall k :: 0 <= k < |s| ==> '0' <= s[k] <= '9'
    ensures DigitsValue(s) == n
  {
    var last := ['0' + (n % 10) as char];
    if n < 10 then last
    else
      var s := Decimal(n / 10) + last;
      assert s[..|s| - 1] == Decimal(n / 10);
      s
  }

  /** The generated `Debug::fmt`: a Rust `match` on the wrapped value whose
      arms are tried in declaration order, with `UNKNOWN(v)` as the last arm. */
  function Render(arms: seq<DebugArm>, v: u32): (r: string)
    ensures exists k :: RendersAt(arms, v, k, r)
  {
    if arms == [] then
      var out := "UNKNOWN(" + Decimal(v) + ")";
      assert RendersAt(arms, v, 0, out);
      out
    else if arms[0].value == v then
      var out := arms[0].name + "(" + Decimal(v) + ")";
      assert RendersAt(arms, v, 0, out);
      out
    else
      var out := Render(arms[1..], v);
      assert exists k :: RendersAt(arms, v, k, out) by {
        var k: nat :| RendersAt(arms[1..], v, k, out);
        assert RendersAt(arms, v, k + 1, out);
      }
      out
  }

  /** `r` is what the match gives when arm `k` is the first with value `v`
      (`k == |arms|`: no arm has it, so the `UNKNOWN` arm is taken). */
  predicate RendersAt(arms: seq<DebugArm>, v: u32, k: nat, r: string) {
    k <= |arms| &&
    (forall j :: 0 <= j < k ==> arms[j].value != v) &&
    (if k < |arms| then arms[k].value == v && r == arms[k].name + "(" + Decimal(v) + ")"
     else r == "UNKNOWN(" + Decimal(v) + ")")
  }

  /** A known value renders as the first arm with that value. */
  lemma {:induction false} RenderFirstMatch(arms: seq<DebugArm>, v: u32, k: nat)
    requires k < |arms| && arms[k].value == v
    requires forall j :: 0 <= j < k ==> arms[j].value != v
    ensures Render(arms, v) == arms[k].name + "(" + Decimal(v) + ")"
  {
    if k > 0 {
      RenderFirstMatch(arms[1..], v, k - 1);
    }
  }

  /** A value no arm has renders as `UNKNOWN(v)`. */
  lemma {:induction false} RenderUnknown(arms: seq<DebugArm>, v: u32)
    requires forall j :: 0 <= j < |arms| ==> arms[j].value != v
    ensures Render(arms, v) == "UNKNOWN(" + Decimal(v) + ")"
  {
    if arms != [] {
      RenderUnknown(arms[1..], v);
    }
  }

  // ---------------------------------------------------------------------------
  // Object registration
  // ---------------------------------------------------------------------------

  /** What `Resident::new` records: the object id, the dispatch function
      (its arms), the interface name and the version. */
  datatype Resident = Resident(id: u32, dispatch: seq<DispatchArm>, interface: string, version: u32)

  /** `into_object`: registers with the trait's own `VERSION`. */
  function IntoObject(code: TraitCode, id: u32): (r: Resident)
    ensures r.version == code.version && r.interface == code.interfaceName
  {
    Resident(id, code.arms, code.interfaceName, code.version)
  }

  /** `into_versioned_object`: registers with the version the caller gives. */
  function IntoVersionedObject(code: TraitCode, id: u32, version: u32): (r: Resident)
    ensures r.version == version && r == IntoObject(code, id).(version := version)
  {
    Resident(id, code.arms, code.interfaceName, version)
  }
}
