/** The part of the Android USB host API the port uses, reduced to what the
    port can observe: a connection answers each transfer from a script fixed
    in advance and records every request it is given. */
module Usb {

  type Byte = b: int | 0 <= b < 0x100

  datatype Option<T> = None | Some(value: T)

  /** Endpoint direction as Android reports it (USB_DIR_IN, USB_DIR_OUT). */
  datatype Direction = In | Out

  /** Endpoint transfer type (USB_ENDPOINT_XFER_CONTROL, _ISOC, _BULK, _INT). */
  datatype TransferType = Control | Isochronous | Bulk | Interrupt

  datatype Endpoint = Endpoint(address: int, kind: TransferType, direction: Direction)

  /** A control transfer with no data stage: request type, request code,
      value, index and timeout in milliseconds. */
  datatype ControlRequest = ControlRequest(requestType: int, request: int, value: int, index: int, timeout: int)

  /** A negative result code: the transfer failed. */
  type ErrorCode = c: int | c < 0 witness -1

  /** What the device answers to one bulk-in transfer: the bytes it sends
      (the chip's two status bytes first), or a failure code. */
  datatype BulkInReply = Received(bytes: seq<Byte>) | Failed(code: ErrorCode)

  /** One bulk-out transfer as the connection saw it. */
  datatype BulkOut = BulkOut(endpoint: Option<Endpoint>, data: seq<Byte>)

  /** The result of a bulk-in transfer into a buffer of `count` bytes: the
      number of bytes delivered (never more than were asked for), or the
      negative failure code. */
  function Delivered(reply: BulkInReply, count: int): int
  {
    match reply
    case Received(bytes) => if |bytes| < count then |bytes| else count
    case Failed(code) => code
  }

  /** The buffer after a bulk-in transfer into it: the delivered bytes
      overwrite its start and the rest keeps what it held before. */
  function Fill(buffer: seq<Byte>, reply: BulkInReply): (r: seq<Byte>)
    ensures |r| == |buffer|
  {
    match reply
    case Received(bytes) =>
      var n := Delivered(reply, |buffer|);
      bytes[..n] + buffer[n..]
    case Failed(_) => buffer
  }

  /** An open UsbDeviceConnection. `controlReply(k)` is the result of the
      k-th control transfer and `bulkInReply(k)` the answer to the k-th
      bulk-in transfer; the logs record, in order, what the port sent. */
  class UsbConnection {
    const controlReply: nat -> int
    const bulkInReply: nat -> BulkInReply
    var controlLog: seq<ControlRequest>
    var inLog: seq<Option<Endpoint>>
    var outLog: seq<BulkOut>
    var claimed: bool
    var closed: bool

    /** Only the control log differs from the state before. */
    twostate predicate OnlyControlLogChanged()
      reads this
    {
      && inLog == old(inLog) && outLog == old(outLog)
      && claimed == old(claimed) && closed == old(closed)
    }

    constructor (controlReply: nat -> int, bulkInReply: nat -> BulkInReply)
      ensures this.controlReply == controlReply && this.bulkInReply == bulkInReply
      ensures controlLog == [] && inLog == [] && outLog == []
      ensures !claimed && !closed
    {
      this.controlReply := controlReply;
      this.bulkInReply := bulkInReply;
      controlLog, inLog, outLog := [], [], [];
      claimed, closed := false, false;
    }

    /** claimInterface(interface, force = true): takes the interface from
        any other claimant. */
    method ClaimInterface()
      modifies this`claimed
      ensures claimed
    {
      claimed := true;
    }

    method ControlTransfer(request: ControlRequest) returns (result: int)
      modifies this`controlLog
      ensures controlLog == old(controlLog) + [request]
      ensures result == controlReply(|old(controlLog)|)
    {
      result := controlReply(|controlLog|);
      controlLog := controlLog + [request];
    }

    /** A bulk-in transfer of `buffer.Length` bytes into `buffer`. */
    method BulkTransferIn(endpoint: Option<Endpoint>, buffer: array<Byte>) returns (result: int)
      modifies this`inLog, buffer
      ensures inLog == old(inLog) + [endpoint]
      ensures result == Delivered(bulkInReply(|old(inLog)|), buffer.Length)
      ensures buffer[..] == Fill(old(buffer[..]), bulkInReply(|old(inLog)|))
    {
      var reply := bulkInReply(|inLog|);
      var filled := Fill(buffer[..], reply);
      forall j | 0 <= j < buffer.Length {
        buffer[j] := filled[j];
      }
      assert buffer[..] == filled;
      result := Delivered(reply, buffer.Length);
      inLog := inLog + [endpoint];
    }

    /** A bulk-out transfer of all of `data`. */
    method BulkTransferOut(endpoint: Option<Endpoint>, data: seq<Byte>)
      modifies this`outLog
      ensures outLog == old(outLog) + [BulkOut(endpoint, data)]
    {
      outLog := outLog + [BulkOut(endpoint, data)];
    }

    method Close()
      modifies this`closed
      ensures closed
    {
      closed := true;
    }
  }
}
