/** The sampling rule of the main loop (main.cpp, `main`): while connected as
    peripheral, read the millisecond timer and, once at least
    `temphum_interval` milliseconds have passed since the last sample by
    32-bit unsigned subtraction, take a sample and remember the reading. */
module Telemetry {
  import opened Types
  import opened Session

  /** `temphum_interval`, in milliseconds. */
  const Interval: uint32 := 1000

  const Modulus: int := 0x1_0000_0000

  /** `cur - last` on `uint32_t`: the difference taken modulo 2^32. It is the
      one 32-bit value that, added to `last` with wrap-around, gives `cur`. */
  function Elapsed(last: uint32, cur: uint32): (d: uint32)
    ensures (last + d) % Modulus == cur
  {
    (cur - last) % Modulus
  }

  /** The wrapped difference is the plain difference when the timer has not
      wrapped, and the distance through 2^32 when it has; and no other 32-bit
      value has the property of `Elapsed`. */
  lemma ElapsedCases(last: uint32, cur: uint32, d: uint32)
    ensures cur >= last ==> Elapsed(last, cur) == cur - last
    ensures cur < last ==> Elapsed(last, cur) == cur + Modulus - last
    ensures (last + d) % Modulus == cur ==> d == Elapsed(last, cur)
  {
    if (last + d) % Modulus == cur {
      if last + d >= Modulus {
        assert last + d - Modulus == cur;
      } else {
        assert last + d == cur;
      }
    }
  }

  /** The outcome of one loop iteration: whether a sample is taken, and the
      value of `temphumOldTimer` afterwards. */
  datatype TickOutcome = TickOutcome(fire: bool, last: uint32)

  /** One pass of the loop body after `checkActivity`. */
  function Tick(state: BleState, last: uint32, now: uint32): TickOutcome
  {
    if state == ConnectedSlave && Elapsed(last, now) >= Interval
    then TickOutcome(true, now)
    else TickOutcome(false, last)
  }

  /** A sample is taken exactly when the node is connected as peripheral and
      at least 1000 ms have passed since the last one, counting a timer
      wrap-around as continuing time; then the reading is remembered,
      otherwise the last one stays. */
  lemma TickRule(state: BleState, last: uint32, now: uint32)
    ensures Tick(state, last, now).fire <==>
              && state == ConnectedSlave
              && (if now >= last then now - last else now + Modulus - last) >= Interval
    ensures Tick(state, last, now).fire ==> Tick(state, last, now).last == now
    ensures !Tick(state, last, now).fire ==> Tick(state, last, now).last == last
  {
    ElapsedCases(last, now, 0);
  }

  /** After a sample, a second pass with the same timer reading takes none. */
  lemma NoDoubleSample(state: BleState, last: uint32, now: uint32)
    requires Tick(state, last, now).fire
    ensures !Tick(state, Tick(state, last, now).last, now).fire
  {
  }

  /** Consecutive readings in `times` are at least one interval apart. */
  predicate Spaced(times: seq<uint32>)
  {
    forall i | 1 <= i < |times| :: Elapsed(times[i - 1], times[i]) >= Interval
  }
}
