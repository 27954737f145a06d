/** The node as a whole (main.cpp): the registered event handlers and the
    main loop, as one step function over inputs. A step either delivers one
    stack event to its handler or runs the telemetry part of one loop
    iteration. What the node does to the outside world is a list of outputs:
    stack commands issued, and colours handed to the LED driver. */
module Firmware {
  import opened Types
  import opened Session
  import opened Advertising
  import opened Framing
  import opened Telemetry

  /** The stack commands the firmware issues, with the arguments it passes. */
  datatype Command =
    | SetAdvParameters(intervalMin: uint16, intervalMax: uint16, channels: byte)
      // `ble_cmd_gap_set_adv_data(set_scanrsp, length, data)`
    | SetAdvData(setScanResponse: byte, length: byte, data: seq<byte>)
    | AddressGet
      // discoverable with user-defined data, undirected connectable
    | SetUserDataMode
    | AttributesWrite(handle: uint16, offset: byte, length: byte, data: seq<byte>)

  datatype Output = Issue(command: Command) | SetLed(rgb: Rgb)

  /** The globals the handlers and the loop share. */
  datatype Node = Node(session: Session, lastSample: uint32)

  /** Static initialisation: `temphumOldTimer` starts at zero. */
  const Start: Node := Node(PowerOn, 0)

  datatype Input =
    | Deliver(event: Event)
    | Poll(now: uint32, temperature: Word, humidity: Word)

  datatype Reaction = Reaction(node: Node, outputs: seq<Output>)

  /** The commands of the boot handler, in order: advertising interval
      320..480 (200..300 ms in 625 us units) on all three channels, the
      advertising data, the address query, the scan response built from its
      answer, and discoverable/connectable mode. */
  function BootCommands(addr: Address): seq<Command>
  {
    [ SetAdvParameters(320, 480, 7),
      SetAdvData(0, PayloadLength, AdvData),
      AddressGet,
      SetAdvData(1, PayloadLength, ScanResponse(addr)),
      SetUserDataMode ]
  }

  /** Each command, in order, as an output. */
  function Issued(cs: seq<Command>): (os: seq<Output>)
  {
    seq(|cs|, i requires 0 <= i < |cs| => Issue(cs[i]))
  }

  /** Runs the handler registered for `e`. */
  function HandleEvent(n: Node, e: Event): Reaction
  {
    var next := n.(session := Next(n.session, e));
    match e
    case Boot(addr) => Reaction(next, Issued(BootCommands(addr)))
    case Disconnected(_) => Reaction(next, [Issue(SetUserDataMode)])
    case AttributeValue(handle, data) =>
      (match DecodeCommand(handle, data)
       case Some(rgb) => Reaction(next, [SetLed(rgb)])
       case None => Reaction(next, []))
    case AddressResponse(_) => Reaction(next, [])
    case ConnectionStatus(_, _) => Reaction(next, [])
  }

  /** The write of one telemetry frame to the telemetry characteristic, at
      offset 0, with the length `sensorbuf[2] + 4` narrowed to the command's
      8-bit length argument. */
  function TelemetryWrite(frame: seq<byte>): Command
    requires |frame| > 2
  {
    AttributesWrite(TelemetryHandle, 0, (frame[2] as int + 4) % 0x100, frame)
  }

  /** The telemetry part of one loop iteration at timer reading `now`. */
  function PollTelemetry(n: Node, now: uint32, temperature: Word, humidity: Word): Reaction
  {
    var tick := Tick(n.session.state, n.lastSample, now);
    if tick.fire then
      Reaction(n.(lastSample := tick.last), [Issue(TelemetryWrite(TelemetryFrame(temperature, humidity)))])
    else Reaction(n, [])
  }

  function Step(n: Node, i: Input): Reaction
  {
    match i
    case Deliver(e) => HandleEvent(n, e)
    case Poll(now, t, h) => PollTelemetry(n, now, t, h)
  }

  /** A command is well formed when every length argument equals the length
      of the data it describes: advertising payloads fit in 31 octets and
      telemetry writes carry a decodable 12-octet frame to handle 20. */
  predicate WellFormed(o: Output)
  {
    match o
    case Issue(SetAdvData(_, len, data)) => len == |data| <= MaxAdvPayload
    case Issue(AttributesWrite(handle, offset, len, data)) =>
      handle == TelemetryHandle && offset == 0 && len == |data| == 12 && DecodeTelemetry(data).Some?
    case _ => true
  }

  /** The boot handler issues its five commands, each advertising payload
      with the length it really has, and leaves the node advertising. */
  lemma BootIssuesSetup(n: Node, addr: Address)
    ensures HandleEvent(n, Boot(addr)).node.session.state == Advertising
    ensures HandleEvent(n, Boot(addr)).outputs == Issued(BootCommands(addr))
    ensures forall i | 0 <= i < |HandleEvent(n, Boot(addr)).outputs| ::
              WellFormed(HandleEvent(n, Boot(addr)).outputs[i])
    ensures HandleEvent(n, Boot(addr)).outputs[4] == Issue(SetUserDataMode)
  {
    AdvDataLayout();
    ScanResponseDigits(addr);
  }

  /** After two disconnects in a row the node is advertising both times, in
      the same state, and each disconnect only re-issues the mode command. */
  lemma DisconnectTwice(n: Node, r1: uint16, r2: uint16)
    ensures var a := HandleEvent(n, Disconnected(r1));
            var b := HandleEvent(a.node, Disconnected(r2));
            && a.node.session.state == Advertising
            && b.node == a.node
            && a.outputs == b.outputs == [Issue(SetUserDataMode)]
  {
  }

  /** A colour reaches the LED driver only from a write to the command handle
      holding a well-framed `'L'` command, and then it is octets 3..5. */
  lemma LedOnlyFromCommand(n: Node, e: Event)
    ensures (exists k | 0 <= k < |HandleEvent(n, e).outputs| :: HandleEvent(n, e).outputs[k].SetLed?) <==>
              e.AttributeValue? && DecodeCommand(e.handle, e.data).Some?
    ensures e.AttributeValue? && DecodeCommand(e.handle, e.data).Some? ==>
              HandleEvent(n, e).outputs == [SetLed(Rgb(e.data[3], e.data[4], e.data[5]))]
  {
    if e.AttributeValue? && DecodeCommand(e.handle, e.data).Some? {
      DecodeCommandChannels(e.handle, e.data);
      assert HandleEvent(n, e).outputs[0].SetLed?;
    }
    if e.Boot? {
      var os := HandleEvent(n, e).outputs;
      assert forall k | 0 <= k < |os| :: os[k].Issue?;
    }
  }

  /** Telemetry goes out only while connected as peripheral, once the
      interval has passed; the frame is a 12-octet write to handle 20 from
      which the peer recovers both samples. */
  lemma PollSendsTelemetry(n: Node, now: uint32, t: Word, h: Word)
    ensures var r := PollTelemetry(n, now, t, h);
            && (|r.outputs| > 0 <==>
                  n.session.state == ConnectedSlave && Elapsed(n.lastSample, now) >= Interval)
            && r.node.session == n.session
            && (|r.outputs| > 0 ==>
                  && r.outputs == [Issue(AttributesWrite(TelemetryHandle, 0, 12, TelemetryFrame(t, h)))]
                  && r.node.lastSample == now
                  && DecodeTelemetry(r.outputs[0].command.data) == Some((t, h)))
            && (|r.outputs| == 0 ==> r.node == n)
  {
    TelemetryRoundTrip(t, h);
  }

  /** The node after a sequence of inputs, with every output in order: `Step`
      applied to each input in turn. */
  function RunSteps(n: Node, inputs: seq<Input>): Reaction
    decreases |inputs|
  {
    if inputs == [] then Reaction(n, [])
    else
      var before := RunSteps(n, inputs[..|inputs| - 1]);
      var r := Step(before.node, inputs[|inputs| - 1]);
      Reaction(r.node, before.outputs + r.outputs)
  }

  /** The timer readings of the loop iterations, among `inputs`, that take a
      sample: each `Poll` whose tick fires in the node reached so far. */
  function SampleTimes(n: Node, inputs: seq<Input>): seq<uint32>
    decreases |inputs|
  {
    if inputs == [] then []
    else
      var before := RunSteps(n, inputs[..|inputs| - 1]).node;
      var i := inputs[|inputs| - 1];
      SampleTimes(n, inputs[..|inputs| - 1]) +
        (if Samples(before, i) then [i.now] else [])
  }

  /** Whether input `i` makes node `n` take a sample. */
  predicate Samples(n: Node, i: Input)
  {
    i.Poll? && Tick(n.session.state, n.lastSample, i.now).fire
  }

  /** Extending the inputs by one extends the run by one step. */
  lemma RunStepsSnoc(n0: Node, inputs: seq<Input>, k: nat)
    requires k < |inputs|
    ensures var before := RunSteps(n0, inputs[..k]);
            var r := Step(before.node, inputs[k]);
            && RunSteps(n0, inputs[..k + 1]) == Reaction(r.node, before.outputs + r.outputs)
            && SampleTimes(n0, inputs[..k + 1]) ==
                 SampleTimes(n0, inputs[..k]) + (if Samples(before.node, inputs[k]) then [inputs[k].now] else [])
  {
    assert inputs[..k + 1][..k] == inputs[..k];
  }

  /** One step keeps the session reachable and emits only well-formed
      outputs; it moves the last sample to the timer reading exactly when it
      takes a sample, which is at least `Interval` after the previous one. */
  lemma StepFacts(n: Node, i: Input)
    ensures Reachable(n.session) ==> Reachable(Step(n, i).node.session)
    ensures forall j | 0 <= j < |Step(n, i).outputs| :: WellFormed(Step(n, i).outputs[j])
    ensures Samples(n, i) ==> Step(n, i).node.lastSample == i.now && Elapsed(n.lastSample, i.now) >= Interval
    ensures !Samples(n, i) ==> Step(n, i).node.lastSample == n.lastSample
  {
    match i {
      case Deliver(e) =>
        if Reachable(n.session) {
          NextKeepsReachable(n.session, e);
        }
        if e.Boot? {
          BootIssuesSetup(n, e.address);
        }
      case Poll(now, t, h) =>
        PollSendsTelemetry(n, now, t, h);
    }
  }

  /** Whatever the inputs, a run from a node whose session is reachable ends
      in a reachable session. */
  lemma {:induction false} RunStepsKeepsReachable(n: Node, inputs: seq<Input>)
    requires Reachable(n.session)
    ensures Reachable(RunSteps(n, inputs).node.session)
    decreases |inputs|
  {
    if inputs != [] {
      var prefix := inputs[..|inputs| - 1];
      RunStepsKeepsReachable(n, prefix);
      StepFacts(RunSteps(n, prefix).node, inputs[|inputs| - 1]);
    }
  }

  /** The node as it starts up is reachable, and so is every node a run from
      it leads to. */
  lemma StartStaysReachable(inputs: seq<Input>)
    ensures Reachable(Start.session)
    ensures Reachable(RunSteps(Start, inputs).node.session)
  {
    RunStepsKeepsReachable(Start, inputs);
  }

  /** A reading at least `Interval` after the last one keeps the readings
      spaced. */
  lemma SpacedSnoc(times: seq<uint32>, now: uint32)
    requires |times| > 0 && Spaced(times)
    requires Elapsed(times[|times| - 1], now) >= Interval
    ensures Spaced(times + [now])
  {
  }

  /** What holds after the first `k` inputs of a run from `n0`: the node,
      outputs and sample times are those of handling them in order, the
      samples are spaced, the node remembers the latest one, every output is
      well formed and reachability is kept. */
  predicate RunSoFar(n0: Node, inputs: seq<Input>, k: nat, n: Node, outputs: seq<Output>, sampleTimes: seq<uint32>)
  {
    && k <= |inputs|
    && Reaction(n, outputs) == RunSteps(n0, inputs[..k])
    && sampleTimes == SampleTimes(n0, inputs[..k])
    && Spaced([n0.lastSample] + sampleTimes)
    && n.lastSample == ([n0.lastSample] + sampleTimes)[|sampleTimes|]
    && (forall j | 0 <= j < |outputs| :: WellFormed(outputs[j]))
    && (Reachable(n0.session) ==> Reachable(n.session))
  }

  /** Handling input `k` extends a run of the first `k` inputs to one of the
      first `k + 1`. */
  lemma RunSoFarStep(n0: Node, inputs: seq<Input>, k: nat, n: Node, outputs: seq<Output>, sampleTimes: seq<uint32>)
    requires k < |inputs|
    requires RunSoFar(n0, inputs, k, n, outputs, sampleTimes)
    ensures var r := Step(n, inputs[k]);
            RunSoFar(n0, inputs, k + 1, r.node, outputs + r.outputs,
                     sampleTimes + (if Samples(n, inputs[k]) then [inputs[k].now] else []))
  {
    RunStepsSnoc(n0, inputs, k);
    StepFacts(n, inputs[k]);
    if Samples(n, inputs[k]) {
      var now := inputs[k].now;
      SpacedSnoc([n0.lastSample] + sampleTimes, now);
      assert [n0.lastSample] + (sampleTimes + [now]) == [n0.lastSample] + sampleTimes + [now];
    } else {
      assert sampleTimes + [] == sampleTimes;
    }
  }

  /** Runs the node over a sequence of inputs. It returns the node and the
      outputs of handling them one after the other, and the timer readings at
      which telemetry went out: consecutive ones (starting from the last
      sample before the run) are at least `Interval` apart, every output is
      well formed, and the session stays reachable. */
  method Run(n0: Node, inputs: seq<Input>) returns (n: Node, outputs: seq<Output>, sampleTimes: seq<uint32>)
    ensures Reaction(n, outputs) == RunSteps(n0, inputs)
    ensures sampleTimes == SampleTimes(n0, inputs)
    ensures Spaced([n0.lastSample] + sampleTimes)
    ensures n.lastSample == ([n0.lastSample] + sampleTimes)[|sampleTimes|]
    ensures forall j | 0 <= j < |outputs| :: WellFormed(outputs[j])
    ensures Reachable(n0.session) ==> Reachable(n.session)
  {
    n, outputs, sampleTimes := n0, [], [];
    var k := 0;
    while k < |inputs|
      invariant RunSoFar(n0, inputs, k, n, outputs, sampleTimes)
      decreases |inputs| - k
    {
      RunSoFarStep(n0, inputs, k, n, outputs, sampleTimes);
      var r := Step(n, inputs[k]);
      sampleTimes := sampleTimes + (if Samples(n, inputs[k]) then [inputs[k].now] else []);
      n, outputs := r.node, outputs + r.outputs;
      k := k + 1;
    }
    assert inputs[..k] == inputs;
  }
}
