/** UART register transport: packets addressed to a slave id, protected by a
    trailing XOR checksum, each exchange bounded by a 100 ms timer.

    The race between the transmit/receive goroutine and the timer is an
    input: whether the write completed in time (`completed`), and for a read
    the 8 received bytes or `None` when the timer fired first. */
module UartComm {
  import opened Wire
  import opened Errors

  const Sync: byte := 0x05
  const BaudRate: nat := 115200

  /** Bit 7 of the register byte: set for a write, clear for a read. */
  const WriteFlag: byte := 0x80
  const RegisterMask: byte := 0x7F

  /** A Go computation that either returns or stops with an index panic. */
  datatype Run<T> = Returns(value: T) | IndexOutOfRange(index: nat, length: nat)

  /** The write buffer's literal: sync, slave address, register with the write
      flag, then the value big-endian. It has seven elements. */
  function WriteHeaderAndValue(address: byte, register: byte, value: word): (b: seq<byte>)
    ensures |b| == 7
    ensures b[0] == Sync && b[1] == address && b[2] == register | WriteFlag
    ensures b[3..] == Be32Bytes(value)
  {
    [Sync, address, register | WriteFlag] + Be32Bytes(value)
  }

  /** Go's `buf[i] = x` on a slice: panics unless `i < len(buf)`. */
  function StoreAt(buf: seq<byte>, i: nat, x: byte): (r: Run<seq<byte>>)
    ensures r.Returns? <==> i < |buf|
    ensures r.Returns? ==> |r.value| == |buf| && r.value[i] == x
    ensures r.Returns? ==> forall j :: 0 <= j < |buf| && j != i ==> r.value[j] == buf[j]
  {
    if i < |buf| then Returns(buf[i := x]) else IndexOutOfRange(i, |buf|)
  }

  /** The write packet as the source builds it: the checksum is stored at
      index 7 of the seven-element literal. */
  function WritePacketAsWritten(address: byte, register: byte, value: word): (r: Run<seq<byte>>)
    ensures r.IndexOutOfRange? && r.index == 7
  {
    var buffer := WriteHeaderAndValue(address, register, value);
    StoreAt(buffer, 7, XorAll(buffer[..7]))
  }

  /** Every write as written stops with an index-out-of-range panic before
      anything is sent. */
  lemma WritePacketAsWrittenPanics(address: byte, register: byte, value: word)
    ensures WritePacketAsWritten(address, register, value) == IndexOutOfRange(7, 7)
  {
  }

  /** The intended 8-byte write packet: the seven-byte literal followed by
      the XOR of those seven bytes. */
  function WritePacket(address: byte, register: byte, value: word): (p: seq<byte>)
    ensures |p| == 8
    ensures p[..7] == WriteHeaderAndValue(address, register, value)
    ensures p[7] == XorAll(p[..7])
    ensures p[2] & WriteFlag == WriteFlag && p[2] & RegisterMask == register & RegisterMask
  {
    var head := WriteHeaderAndValue(address, register, value);
    head + [XorAll(head)]
  }

  /** The XOR of all eight bytes of a write packet is zero. */
  lemma WritePacketXorZero(address: byte, register: byte, value: word)
    ensures XorAll(WritePacket(address, register, value)) == 0
  {
    var p := WritePacket(address, register, value);
    assert p[..|p| - 1] == p[..7];
    XorSelfCancels(XorAll(p[..7]));
  }

  lemma XorSelfCancels(x: byte)
    ensures x ^ x == 0
  {
  }

  /** The value field of a write packet is the value, big-endian. */
  lemma WritePacketCarriesValue(address: byte, register: byte, value: word)
    ensures Be32Value(WritePacket(address, register, value)[3..7]) == value
  {
    var p := WritePacket(address, register, value);
    assert p[3..7] == p[..7][3..] == Be32Bytes(value);
    Be32RoundTrip(value);
  }

  /** The read request: sync, slave address, register with bit 7 clear, and
      the XOR of those three bytes. */
  function ReadRequest(address: byte, register: byte): (q: seq<byte>)
    ensures |q| == 4 && q[0] == Sync && q[1] == address
    ensures q[2] & WriteFlag == 0 && q[2] & RegisterMask == register & RegisterMask
    ensures q[3] == XorAll(q[..3])
  {
    var r := register & RegisterMask;
    var q := [Sync, address, r, Sync ^ address ^ r];
    assert q[..3] == [Sync, address, r];
    XorAllOfThree(Sync, address, r);
    q
  }

  lemma XorAllOfThree(a: byte, b: byte, c: byte)
    ensures XorAll([a, b, c]) == a ^ b ^ c
  {
    assert [a, b, c][..2] == [a, b];
    assert [a, b][..1] == [a];
    XorAllSingle(a);
  }

  /** Validation and decoding of an 8-byte read reply: the trailing byte
      must equal the XOR of bytes 0-6; then bytes 3-6 are the value. The
      sync, address and register bytes of the reply are not inspected. */
  function ParseReply(reply: seq<byte>): (r: (word, Option<CustomError>))
    requires |reply| == 8
    ensures r.1 == None <==> reply[7] == XorAll(reply[..7])
    ensures r.1 != None ==> r == (0, Some(ChecksumError))
    ensures r.1 == None ==> Be32Bytes(r.0) == reply[3..7]
  {
    if XorAll(reply[..7]) != reply[7] then
      (0, Some(ChecksumError))
    else
      (Be32Value(reply[3..7]), None)
  }

  /** A reply with any three header bytes, the value big-endian and a
      correct checksum. */
  function ReplyFrame(header: seq<byte>, value: word): (reply: seq<byte>)
    requires |header| == 3
    ensures |reply| == 8
  {
    var body := header + Be32Bytes(value);
    body + [XorAll(body)]
  }

  /** Every well-formed reply decodes to the value it was built around. */
  lemma ReplyRoundTrip(header: seq<byte>, value: word)
    requires |header| == 3
    ensures ParseReply(ReplyFrame(header, value)) == (value, None)
  {
    var reply := ReplyFrame(header, value);
    assert reply[..7] == header + Be32Bytes(value);
    assert reply[3..7] == Be32Bytes(value);
    Be32RoundTrip(value);
  }

  /** A reply passes the checksum exactly when the XOR of all its bytes is 0. */
  lemma {:induction false} ChecksumIffXorZero(reply: seq<byte>)
    requires |reply| == 8
    ensures reply[7] == XorAll(reply[..7]) <==> XorAll(reply) == 0
  {
    assert reply[..|reply| - 1] == reply[..7];
    XorZeroIffEqual(XorAll(reply[..7]), reply[7]);
  }

  lemma XorZeroIffEqual(x: byte, y: byte)
    ensures x ^ y == 0 <==> x == y
  {
  }

  /** Changing any single byte of a reply that passes the checksum makes it
      fail the checksum. */
  lemma SingleByteCorruptionDetected(reply: seq<byte>, i: nat, b: byte)
    requires |reply| == 8 && i < 8 && b != reply[i]
    requires ParseReply(reply).1 == None
    ensures ParseReply(reply[i := b]) == (0, Some(ChecksumError))
  {
    ChecksumIffXorZero(reply);
    ChecksumIffXorZero(reply[i := b]);
    XorAllUpdate(reply, i, b);
    XorZeroIffEqual(reply[i], b);
  }

  datatype UartAction =
    | ConfigureUart(baud: nat)
    | Send(bytes: seq<byte>)

  class UartComm {
    /** False models a zero-valued `machine.UART{}` handle. */
    const uartPresent: bool
    /** The slave address written into every packet. */
    const address: byte
    /** Every hardware action taken so far, oldest first. */
    var actions: seq<UartAction>

    /** `NewUARTComm`: stores the UART and the slave address. */
    constructor (uartPresent: bool, address: byte)
      ensures this.uartPresent == uartPresent && this.address == address
      ensures actions == []
    {
      this.uartPresent := uartPresent;
      this.address := address;
      actions := [];
    }

    /** `Setup`: configures the UART at 115200 baud when a UART is present.
        `configureFails` is the outcome of that configuration. */
    method Setup(configureFails: bool) returns (err: Option<CustomError>)
      modifies this`actions
      ensures !uartPresent ==> err == Some(UartNotInitialized) && actions == old(actions)
      ensures uartPresent ==> actions == old(actions) + [ConfigureUart(BaudRate)]
      ensures uartPresent ==>
        err == (if configureFails then Some(FailedToConfigureUart) else None)
    {
      if !uartPresent {
        return Some(UartNotInitialized);
      }
      actions := actions + [ConfigureUart(BaudRate)];
      if configureFails {
        return Some(FailedToConfigureUart);
      }
      return None;
    }

    /** `WriteRegister`: dispatches the write packet addressed to `address`
        (`driverIndex` is ignored); returns nil if the write completes before
        the timer, otherwise a write timeout. The dispatched write is not
        cancelled on timeout. */
    method WriteRegister(register: byte, value: word, driverIndex: byte, completed: bool)
      returns (err: Option<CustomError>)
      modifies this`actions
      ensures actions == old(actions) + [Send(WritePacket(address, register, value))]
      ensures err == (if completed then None else Some(WriteTimeout))
    {
      var buffer := new byte[8];
      buffer[0] := Sync;
      buffer[1] := address;
      buffer[2] := register | WriteFlag;
      buffer[3] := ((value >> 24) & 0xFF) as byte;
      buffer[4] := ((value >> 16) & 0xFF) as byte;
      buffer[5] := ((value >> 8) & 0xFF) as byte;
      buffer[6] := (value & 0xFF) as byte;
      assert buffer[..7] == WriteHeaderAndValue(address, register, value);
      var checksum := XorChecksum(buffer[..], 7);
      buffer[7] := checksum;
      assert buffer[..] == WritePacket(address, register, value);
      actions := actions + [Send(buffer[..])];
      if completed {
        return None;
      }
      return Some(WriteTimeout);
    }

    /** `ReadRegister`: dispatches the read request addressed to `address`
        (`driverIndex` is ignored) and awaits an 8-byte reply; `None` is the
        timer firing first. A reply is validated and decoded by `ParseReply`. */
    method ReadRegister(register: byte, driverIndex: byte, reply: Option<seq<byte>>)
      returns (value: word, err: Option<CustomError>)
      requires reply.Some? ==> |reply.value| == 8
      modifies this`actions
      ensures actions == old(actions) + [Send(ReadRequest(address, register))]
      ensures reply.None? ==> value == 0 && err == Some(ReadTimeout)
      ensures reply.Some? ==> (value, err) == ParseReply(reply.value)
    {
      var writeBuffer := new byte[4];
      writeBuffer[0] := Sync;
      writeBuffer[1] := address;
      writeBuffer[2] := register & RegisterMask;
      writeBuffer[3] := writeBuffer[0] ^ writeBuffer[1] ^ writeBuffer[2];
      assert writeBuffer[..] == ReadRequest(address, register);
      actions := actions + [Send(writeBuffer[..])];
      if reply.None? {
        return 0, Some(ReadTimeout);
      }
      var readBuffer := reply.value;
      var checksum := XorChecksum(readBuffer, 7);
      if checksum != readBuffer[7] {
        return 0, Some(ChecksumError);
      }
      value := Be32Value(readBuffer[3..7]);
      err := None;
    }
  }
}
