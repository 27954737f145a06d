/** The BLE link tracker of the firmware: the three globals `ble_state`,
    `ble_encrypted` and `ble_bonding`, and how the boot, connection-status and
    disconnect handlers change them (main.cpp, `my_ble_evt_*`). Each handler
    becomes one pure transition of `Next`. */
module Session {
  import opened Types

  /** The six `BLE_STATE_*` values. Only `Standby`, `Advertising`,
      `ConnectedMaster` and `ConnectedSlave` are ever assigned. */
  datatype BleState =
    | Standby
    | Scanning
    | Advertising
    | Connecting
    | ConnectedMaster
    | ConnectedSlave

  /** The numeric value the firmware stores in `ble_state`. */
  function Code(st: BleState): byte
  {
    match st
    case Standby => 0
    case Scanning => 1
    case Advertising => 2
    case Connecting => 3
    case ConnectedMaster => 4
    case ConnectedSlave => 5
  }

  /** Reads a stored `ble_state` byte back; values above 5 name no state. */
  function FromCode(c: byte): Option<BleState>
  {
    if c == 0 then Some(Standby)
    else if c == 1 then Some(Scanning)
    else if c == 2 then Some(Advertising)
    else if c == 3 then Some(Connecting)
    else if c == 4 then Some(ConnectedMaster)
    else if c == 5 then Some(ConnectedSlave)
    else None
  }

  /** The state codes are exactly 0..5, and decoding a stored code gives the
      state back. */
  lemma CodeRoundTrip(st: BleState, c: byte)
    ensures Code(st) <= 5
    ensures FromCode(Code(st)) == Some(st)
    ensures FromCode(c).Some? <==> c <= 5
    ensures FromCode(c).Some? ==> Code(FromCode(c).value) == c
  {
  }

  /** `ble_bonding` value meaning "no bonding". */
  const NoBonding: byte := 0xFF

  /** The link tracker: `ble_state`, `ble_encrypted` (0 = not encrypted,
      otherwise encrypted) and `ble_bonding` (`NoBonding` or a bonding handle). */
  datatype Session = Session(state: BleState, encrypted: byte, bonding: byte)

  /** The globals' static initialisers. */
  const PowerOn: Session := Session(Standby, 0, NoBonding)

  /** The stack events for which the firmware registers a handler. */
  datatype Event =
    | Boot(address: Address)
    | AddressResponse(address: Address)
    | ConnectionStatus(flags: byte, bonding: byte)
    | Disconnected(reason: uint16)
    | AttributeValue(handle: uint16, data: seq<byte>)

  /** Bit `k` of `x`, by arithmetic. */
  function Bit(x: byte, k: nat): bool
  {
    (x / Pow2(k)) % 2 == 1
  }

  function Pow2(k: nat): (r: nat)
    ensures r >= 1
  {
    if k == 0 then 1 else 2 * Pow2(k - 1)
  }

  /** The connection-status test `(flags & 0x05) == 0x05`: the "connected"
      (bit 0) and "completed" (bit 2) flags are both set. */
  predicate NewConnection(flags: byte)
  {
    BitAnd(flags, 0x05) == 0x05
  }

  /** The masked test is exactly "bit 0 and bit 2 are set", whatever the other
      bits hold. */
  lemma NewConnectionIffBits(flags: byte)
    ensures NewConnection(flags) <==> Bit(flags, 0) && Bit(flags, 2)
  {
    assert Pow2(0) == 1 && Pow2(2) == 4;
    OddMask(flags, 2); EvenMask(flags / 2, 1); Mask1(flags / 4);
    assert flags / 2 / 2 == flags / 4;
  }

  /** `ble_encrypted` after a connection-status event: 2 when the "encrypted"
      flag (bit 1) is set, 0 otherwise. */
  lemma EncryptedIsBit1(flags: byte)
    ensures BitAnd(flags, 0x02) == (if Bit(flags, 1) then 2 else 0)
  {
    assert Pow2(1) == 2;
    EvenMask(flags, 1); Mask1(flags / 2);
  }

  /** One handler run: the tracker after event `e` arrives in session `s`. */
  function Next(s: Session, e: Event): (t: Session)
  {
    match e
    case Boot(_) =>
      // ble_state = BLE_STATE_ADVERTISING once advertising is set up
      s.(state := Advertising)
    case ConnectionStatus(flags, bonding) =>
      var state :=
        if NewConnection(flags) then
          (if s.state == Advertising then ConnectedSlave else ConnectedMaster)
        else s.state;
      Session(state, BitAnd(flags, 0x02), bonding)
    case Disconnected(_) =>
      Session(Advertising, 0, NoBonding)
    case AddressResponse(_) => s
    case AttributeValue(_, _) => s
  }

  /** A new connection reached from `Advertising` is one where this device is
      the peripheral (slave); from any other state, the central (master). A
      status event without both bits 0 and 2 keeps the state. */
  lemma ConnectionStatusState(s: Session, flags: byte, bonding: byte)
    ensures Bit(flags, 0) && Bit(flags, 2) && s.state == Advertising ==>
              Next(s, ConnectionStatus(flags, bonding)).state == ConnectedSlave
    ensures Bit(flags, 0) && Bit(flags, 2) && s.state != Advertising ==>
              Next(s, ConnectionStatus(flags, bonding)).state == ConnectedMaster
    ensures !(Bit(flags, 0) && Bit(flags, 2)) ==>
              Next(s, ConnectionStatus(flags, bonding)).state == s.state
  {
    NewConnectionIffBits(flags);
  }

  /** Every connection-status event, connected or not, overwrites both link
      attributes: encryption becomes 0 or 2 according to bit 1, bonding is the
      event's bonding handle. */
  lemma ConnectionStatusMetadata(s: Session, flags: byte, bonding: byte)
    ensures var t := Next(s, ConnectionStatus(flags, bonding));
            && t.encrypted in {0, 2}
            && (t.encrypted == 2 <==> Bit(flags, 1))
            && t.bonding == bonding
  {
    EncryptedIsBit1(flags);
  }

  /** A disconnect returns to advertising with the link attributes cleared,
      whatever the prior session, and a second disconnect changes nothing. */
  lemma DisconnectResets(s: Session, reason: uint16, reason': uint16)
    ensures Next(s, Disconnected(reason)) == Session(Advertising, 0, NoBonding)
    ensures Next(Next(s, Disconnected(reason)), Disconnected(reason')) == Next(s, Disconnected(reason))
  {
  }

  /** Boot always ends in `Advertising` and leaves the link attributes alone. */
  lemma BootAdvertises(s: Session, addr: Address)
    ensures Next(s, Boot(addr)).state == Advertising
    ensures Next(s, Boot(addr)).encrypted == s.encrypted
    ensures Next(s, Boot(addr)).bonding == s.bonding
  {
  }

  /** The address-response handler only logs: the tracker is unchanged. */
  lemma AddressResponseKeepsSession(s: Session, addr: Address)
    ensures Next(s, AddressResponse(addr)) == s
  {
  }

  /** The attribute-value handler drives the LED only: whatever the write,
      the tracker is unchanged. */
  lemma AttributeValueKeepsSession(s: Session, handle: uint16, data: seq<byte>)
    ensures Next(s, AttributeValue(handle, data)) == s
  {
  }

  /** The connection-status rule is not idempotent: a second "new connection"
      status while already connected as peripheral reclassifies the link as
      central, because the prior state is no longer `Advertising`. */
  lemma RepeatedConnectionStatusFlipsRole(s: Session, flags: byte, bonding: byte)
    requires s.state == Advertising
    requires NewConnection(flags)
    ensures Next(s, ConnectionStatus(flags, bonding)).state == ConnectedSlave
    ensures Next(Next(s, ConnectionStatus(flags, bonding)), ConnectionStatus(flags, bonding)).state
              == ConnectedMaster
  {
  }

  /** Sessions the firmware can be in: `Scanning` and `Connecting` are never
      assigned, and `ble_encrypted` only ever holds 0 or 2. */
  predicate Reachable(s: Session)
  {
    && s.state !in {Scanning, Connecting}
    && s.encrypted in {0, 2}
  }

  /** The tracker after a whole sequence of events. */
  function Run(s: Session, es: seq<Event>): Session
    decreases |es|
  {
    if es == [] then s else Run(Next(s, es[0]), es[1..])
  }

  /** One event keeps a session reachable. */
  lemma NextKeepsReachable(s: Session, e: Event)
    requires Reachable(s)
    ensures Reachable(Next(s, e))
  {
    if e.ConnectionStatus? {
      ConnectionStatusMetadata(s, e.flags, e.bonding);
    }
  }

  /** From power-on, whatever events arrive, the session stays reachable. */
  lemma {:induction false} RunKeepsReachable(s: Session, es: seq<Event>)
    requires Reachable(s)
    ensures Reachable(Run(s, es))
    decreases |es|
  {
    if es != [] {
      NextKeepsReachable(s, es[0]);
      RunKeepsReachable(Next(s, es[0]), es[1..]);
    }
  }

  /** The peripheral role is entered only by a new-connection status event
      arriving while advertising. */
  lemma SlaveOnlyFromAdvertising(s: Session, e: Event)
    requires s.state != ConnectedSlave
    requires Next(s, e).state == ConnectedSlave
    ensures s.state == Advertising
    ensures e.ConnectionStatus? && Bit(e.flags, 0) && Bit(e.flags, 2)
  {
    NewConnectionIffBits(e.flags);
  }
}
