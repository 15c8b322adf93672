/** SPI register transport: one 5-byte full-duplex exchange per register
    access, with one chip-select pin per driver on a shared bus.

    The hardware is observed through the pin levels the transport drives and
    an ordered log of the bus actions it takes. The bus `Tx` call is an input
    (`TxReply`): it either reports a fault or fills the 5-byte receive buffer. */
module SpiComm {
  import opened Wire
  import opened Errors

  /** A TinyGo `machine.Pin` (a pin number). */
  type Pin = uint8

  datatype Level = Low | High

  /** What the transport does to the hardware, in order. */
  datatype BusAction =
    | ConfigureOutput(pin: Pin)
    | DriveHigh(pin: Pin)
    | DriveLow(pin: Pin)
    | ConfigureBus(mode: nat, lsbFirst: bool)
    | Transfer(tx: seq<byte>)

  /** An action `Setup` takes on a chip-select pin of `pins`. */
  predicate PinSetupAction(act: BusAction, pins: set<Pin>)
  {
    (act.ConfigureOutput? || act.DriveHigh?) && act.pin in pins
  }

  /** Outcome of `spi.Tx(tx, rx)`: a bus fault, or the 5 received bytes. */
  datatype TxReply = TxFault | TxDone(rx: seq<byte>)

  predicate WellFormedReply(reply: TxReply)
  {
    reply.TxDone? ==> |reply.rx| == 5
  }

  /** The transmitted datagram: the register byte, then the value big-endian. */
  function SpiFrame(register: byte, value: word): (f: seq<byte>)
    ensures |f| == 5 && f[0] == register
    ensures f[1..] == Be32Bytes(value)
  {
    [register] + Be32Bytes(value)
  }

  /** The value carried by a reply: bytes 1-4 big-endian; byte 0, the
      status byte, is dropped. */
  function SpiDecode(rx: seq<byte>): (v: word)
    requires |rx| == 5
    ensures Be32Bytes(v) == rx[1..]
  {
    assert rx[1..5] == rx[1..];
    Be32Value(rx[1..5])
  }

  /** Decoding the value field of the frame built for `value` gives `value`
      back, whatever the register byte. */
  lemma SpiFrameRoundTrip(register: byte, value: word)
    ensures SpiDecode(SpiFrame(register, value)) == value
  {
    assert SpiFrame(register, value)[1..5] == Be32Bytes(value);
    Be32RoundTrip(value);
  }

  /** The status byte never affects the decoded value. */
  lemma SpiDecodeIgnoresStatus(rx: seq<byte>, status: byte)
    requires |rx| == 5
    ensures SpiDecode(rx[0 := status]) == SpiDecode(rx)
  {
    assert rx[0 := status][1..5] == rx[1..5];
  }

  /** A read sends the register byte followed by four zero bytes. */
  lemma ReadFrameIsZeroFilled(register: byte)
    ensures SpiFrame(register, 0) == [register, 0, 0, 0, 0]
  {
  }

  /** The value `spiTransfer40` returns: 0 on a bus fault, otherwise the
      decoded reply. */
  function TransferResult(reply: TxReply): (v: word)
    requires WellFormedReply(reply)
    ensures reply.TxFault? ==> v == 0
    ensures reply.TxDone? ==> v == SpiDecode(reply.rx) && Be32Bytes(v) == reply.rx[1..]
  {
    if reply.TxFault? then 0 else SpiDecode(reply.rx)
  }

  class SpiComm {
    /** False models a zero-valued `machine.SPI{}` handle. */
    const busPresent: bool
    /** Driver address to chip-select pin. */
    const csPins: map<uint8, Pin>
    /** Levels of the pins this transport has driven. */
    var levels: map<Pin, Level>
    /** Every hardware action taken so far, oldest first. */
    var actions: seq<BusAction>

    /** `NewSPIComm`: stores the bus and the chip-select table; no hardware
        is touched. */
    constructor (busPresent: bool, csPins: map<uint8, Pin>)
      ensures this.busPresent == busPresent && this.csPins == csPins
      ensures levels == map[] && actions == []
    {
      this.busPresent := busPresent;
      this.csPins := csPins;
      levels := map[];
      actions := [];
    }

    /** `Setup`: with a bus present, configures every table pin as an output
        and drives it High, then configures the bus for mode 3, MSB first.
        `configureFails` is the outcome of the bus configuration. */
    method Setup(configureFails: bool) returns (err: Option<CustomError>)
      modifies this`levels, this`actions
      ensures !busPresent ==> err == Some(SpiNotInitialized)
      ensures !busPresent ==> levels == old(levels) && actions == old(actions)
      ensures busPresent ==>
        err == (if configureFails then Some(FailedToConfigureSpi) else None)
      ensures busPresent ==> levels.Keys == old(levels).Keys + csPins.Values
      ensures busPresent ==> forall p :: p in csPins.Values ==> levels[p] == High
      ensures busPresent ==>
        forall p :: p in old(levels) && p !in csPins.Values ==> levels[p] == old(levels)[p]
      ensures busPresent ==>
        && |actions| > |old(actions)|
        && actions[..|old(actions)|] == old(actions)
        && actions[|actions| - 1] == ConfigureBus(3, false)
      ensures busPresent ==>
        forall i :: |old(actions)| <= i < |actions| - 1 ==> PinSetupAction(actions[i], csPins.Values)
      ensures busPresent ==>
        forall p :: p in csPins.Values ==>
          ConfigureOutput(p) in actions[|old(actions)|..] && DriveHigh(p) in actions[|old(actions)|..]
    {
      if !busPresent {
        return Some(SpiNotInitialized);
      }
      var remaining := csPins.Keys;
      ghost var start := |actions|;
      ghost var done: set<uint8> := {};
      ghost var raised: set<Pin> := {};
      while remaining != {}
        invariant remaining + done == csPins.Keys && remaining !! done
        invariant raised <= csPins.Values
        invariant forall a :: a in done ==> csPins[a] in raised
        invariant |actions| >= start && actions[..start] == old(actions)
        invariant levels.Keys == old(levels).Keys + raised
        invariant forall p :: p in raised ==> levels[p] == High
        invariant forall p :: p in old(levels) && p !in csPins.Values ==> levels[p] == old(levels)[p]
        invariant forall i :: start <= i < |actions| ==> PinSetupAction(actions[i], csPins.Values)
        invariant forall p :: p in raised ==>
          ConfigureOutput(p) in actions[start..] && DriveHigh(p) in actions[start..]
        decreases remaining
      {
        var a :| a in remaining;
        var pin := csPins[a];
        assert pin in csPins.Values;
        ghost var before := actions;
        actions := actions + [ConfigureOutput(pin), DriveHigh(pin)];
        assert actions[start..] == before[start..] + [ConfigureOutput(pin), DriveHigh(pin)];
        levels := levels[pin := High];
        remaining := remaining - {a};
        done := done + {a};
        raised := raised + {pin};
      }
      assert raised == csPins.Values by {
        forall p | p in csPins.Values ensures p in raised {
          var a :| a in csPins.Keys && csPins[a] == p;
          assert a in done;
        }
      }
      ghost var configured := actions;
      actions := actions + [ConfigureBus(3, false)];
      assert actions[start..] == configured[start..] + [ConfigureBus(3, false)];
      if configureFails {
        return Some(FailedToConfigureSpi);
      }
      return None;
    }

    /** `spiTransfer40`: sends the frame for `register` and `txData` and
        decodes the reply. `faulted` reports a bus fault. */
    method Transfer40(register: byte, txData: word, reply: TxReply)
      returns (rxData: word, faulted: bool)
      requires WellFormedReply(reply)
      modifies this`actions
      ensures actions == old(actions) + [Transfer(SpiFrame(register, txData))]
      ensures faulted == reply.TxFault?
      ensures rxData == TransferResult(reply)
    {
      var tx := [register] + Be32Bytes(txData);
      actions := actions + [Transfer(tx)];
      if reply.TxFault? {
        return 0, true;
      }
      var rx := reply.rx;
      rxData := Be32Value(rx[1..5]);
      faulted := false;
    }

    /** `WriteRegister`: an unknown address fails before any pin or bus
        action; otherwise the driver's pin is Low for exactly one exchange
        and High again afterwards, whether or not the bus faulted. */
    method WriteRegister(register: byte, value: word, driverAddress: uint8, reply: TxReply)
      returns (err: Option<CustomError>)
      requires WellFormedReply(reply)
      modifies this`levels, this`actions
      ensures driverAddress !in csPins ==>
        err == Some(InvalidDriverAddress) && levels == old(levels) && actions == old(actions)
      ensures driverAddress in csPins ==>
        var pin := csPins[driverAddress];
        && actions == old(actions) + [DriveLow(pin), Transfer(SpiFrame(register, value)), DriveHigh(pin)]
        && levels == old(levels)[pin := High]
        && err == (if reply.TxFault? then Some(FailedToWriteRegister) else None)
    {
      if driverAddress !in csPins {
        return Some(InvalidDriverAddress);
      }
      var pin := csPins[driverAddress];
      actions := actions + [DriveLow(pin)];
      levels := levels[pin := Low];
      var _, faulted := Transfer40(register, value, reply);
      actions := actions + [DriveHigh(pin)];
      levels := levels[pin := High];
      if faulted {
        return Some(FailedToWriteRegister);
      }
      return None;
    }

    /** `ReadRegister`: as `WriteRegister`, with a zero value field; returns
        bytes 1-4 of this exchange's reply (the chip answers with the data
        latched by the previous exchange; no second read is made). */
    method ReadRegister(register: byte, driverAddress: uint8, reply: TxReply)
      returns (value: word, err: Option<CustomError>)
      requires WellFormedReply(reply)
      modifies this`levels, this`actions
      ensures driverAddress !in csPins ==>
        && value == 0 && err == Some(InvalidDriverAddress)
        && levels == old(levels) && actions == old(actions)
      ensures driverAddress in csPins ==>
        var pin := csPins[driverAddress];
        && actions == old(actions) + [DriveLow(pin), Transfer(SpiFrame(register, 0)), DriveHigh(pin)]
        && levels == old(levels)[pin := High]
        && value == TransferResult(reply)
        && err == (if reply.TxFault? then Some(FailedToReadRegister) else None)
    {
      if driverAddress !in csPins {
        return 0, Some(InvalidDriverAddress);
      }
      var pin := csPins[driverAddress];
      actions := actions + [DriveLow(pin)];
      levels := levels[pin := Low];
      var response, faulted := Transfer40(register, 0, reply);
      actions := actions + [DriveHigh(pin)];
      levels := levels[pin := High];
      if faulted {
        return 0, Some(FailedToReadRegister);
      }
      return response, None;
    }
  }
}
