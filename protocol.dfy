/** The control requests the port sends and what each port operation sends
    and returns, as functions of the connection's replies; the endpoint
    discovery loop and the read-buffer framing as functions. */
module Protocol {
  import opened Errors
  import opened Usb
  import opened BaudRate
  import opened LineControl

  /** REQTYPE_HOST_TO_DEVICE as written: UsbConstants.UsbTypeVendor (0x40)
      | 128. Bit 7 of bmRequestType is the direction (section 9.3 of the
      USB 2.0 specification), and 128 sets it: the value says device-to-host
      although its name says host-to-device. */
  const RequestType := 0x40 + 128
  const SetBaudRateRequest := 3
  const SetDataRequest := 4
  const ResetRequest := 0
  const ResetAll := 0
  /** USB_WRITE_TIMEOUT_MILLIS: Android reads a timeout of 0 as no limit. */
  const WriteTimeoutMillis := 0

  /** The direction bit and the type field of a bmRequestType (section
      9.3 of the USB 2.0 specification): 1 is device-to-host, 2 is vendor. */
  function DirectionBit(requestType: int): int { (requestType / 0x80) % 2 }
  function TypeField(requestType: int): int { (requestType / 0x20) % 4 }

  /** The request type is a vendor request whose direction bit says
      device-to-host. */
  lemma RequestTypeIsVendorDeviceToHost()
    ensures RequestType == 0xC0
    ensures TypeField(RequestType) == 2 && DirectionBit(RequestType) == 1
  {
  }

  function ResetControl(): ControlRequest
  {
    ControlRequest(RequestType, ResetRequest, ResetAll, 1, WriteTimeoutMillis)
  }

  function BaudRateControl(setting: BaudSetting): ControlRequest
  {
    ControlRequest(RequestType, SetBaudRateRequest, setting.value, setting.index, WriteTimeoutMillis)
  }

  function LineDataControl(config: int): ControlRequest
  {
    ControlRequest(RequestType, SetDataRequest, config, 1, WriteTimeoutMillis)
  }

  /** The settings fixed when a port is constructed. */
  datatype PortConfig = PortConfig(baudRate: int, dataBits: int, stopBits: StopBits, parity: Parity)

  /** The parameterless constructor's settings: 9600 baud, 8 data bits, one
      stop bit, no parity. */
  const DefaultConfig := PortConfig(9600, 8, StopBits.One, Parity.None)

  /** A configuration SetParameters accepts. */
  predicate Acceptable(config: PortConfig)
  {
    && config.baudRate > 0
    && EncodeBaudRate(config.baudRate).Ok?
    && LineConfig(config.dataBits, config.parity, config.stopBits).Ok?
  }

  /** What an operation sent over the control pipe and what it returned. */
  datatype Run<T> = Run(sent: seq<ControlRequest>, result: T)

  /** SetBaudRate on a connection whose next control transfer is the k-th:
      the request it sends and the effective rate it returns. */
  function BaudRateRun(b: int, reply: nat -> int, k: nat): (run: Run<Result<int>>)
    requires b > 0
    ensures |run.sent| <= 1
    ensures EncodeBaudRate(b).Err? ==> run == Run([], Err(EncodeBaudRate(b).error))
    ensures EncodeBaudRate(b).Ok? ==> run.sent == [BaudRateControl(EncodeBaudRate(b).value)]
    ensures run.result.Ok? <==> EncodeBaudRate(b).Ok? && reply(k) == 0
    ensures run.result.Ok? ==> WithinTolerance(run.result.value, b)
    ensures run.result.Ok? ==> run.result.value == EncodeBaudRate(b).value.effective
    ensures EncodeBaudRate(b).Ok? && reply(k) != 0 ==> run.result == Err(IOException(SetBaudRateFailed, reply(k)))
  {
    match EncodeBaudRate(b)
    case Err(e) => Run([], Err(e))
    case Ok(setting) =>
      var result := reply(k);
      Run([BaudRateControl(setting)],
          if result != 0 then Err(IOException(SetBaudRateFailed, result)) else Ok(setting.effective))
  }

  /** SetParameters on a connection whose next control transfer is the
      k-th: the baud rate is checked, encoded and sent before the line
      settings are looked at. */
  function ConfigureRun(config: PortConfig, reply: nat -> int, k: nat): (run: Run<Outcome>)
    ensures config.baudRate <= 0 ==> run == Run([], Fail(IllegalArgumentException(InvalidBaudRate)))
    ensures run.sent != [] ==>
              && config.baudRate > 0 && EncodeBaudRate(config.baudRate).Ok?
              && run.sent[0] == BaudRateControl(EncodeBaudRate(config.baudRate).value)
    ensures run.result == Pass <==> Acceptable(config) && reply(k) == 0 && reply(k + 1) == 0
    ensures run.result == Pass ==> run.sent == [
      BaudRateControl(EncodeBaudRate(config.baudRate).value),
      LineDataControl(LineConfig(config.dataBits, config.parity, config.stopBits).value)]
    ensures config.baudRate > 0 && EncodeBaudRate(config.baudRate).Err? ==>
      run == Run([], Fail(EncodeBaudRate(config.baudRate).error))
    ensures config.baudRate > 0 && EncodeBaudRate(config.baudRate).Ok? && reply(k) != 0 ==>
      run == Run([BaudRateControl(EncodeBaudRate(config.baudRate).value)],
                 Fail(IOException(SetBaudRateFailed, reply(k))))
    ensures Acceptable(config) && reply(k) == 0 && reply(k + 1) != 0 ==>
      run == Run([BaudRateControl(EncodeBaudRate(config.baudRate).value),
                  LineDataControl(LineConfig(config.dataBits, config.parity, config.stopBits).value)],
                 Fail(IOException(SetParametersFailed, reply(k + 1))))
  {
    if config.baudRate <= 0 then Run([], Fail(IllegalArgumentException(InvalidBaudRate)))
    else
      var baud := BaudRateRun(config.baudRate, reply, k);
      if baud.result.Err? then Run(baud.sent, Fail(baud.result.error))
      else match LineConfig(config.dataBits, config.parity, config.stopBits)
        case Err(e) => Run(baud.sent, Fail(e))
        case Ok(word) =>
          var result := reply(k + 1);
          Run(baud.sent + [LineDataControl(word)],
              if result != 0 then Fail(IOException(SetParametersFailed, result)) else Pass)
  }

  /** An invalid line setting is reported only after the baud-rate request
      has gone out: the chip is left with the new baud rate. */
  lemma InvalidLineLeavesBaudRateSet(config: PortConfig, reply: nat -> int, k: nat)
    requires config.baudRate > 0 && EncodeBaudRate(config.baudRate).Ok? && reply(k) == 0
    requires LineConfig(config.dataBits, config.parity, config.stopBits).Err?
    ensures ConfigureRun(config, reply, k)
      == Run([BaudRateControl(EncodeBaudRate(config.baudRate).value)],
             Fail(LineConfig(config.dataBits, config.parity, config.stopBits).error))
  {
  }

  /** The control part of OpenAsync on a freshly opened connection whose
      next control transfer is the k-th: reset, then SetParameters. */
  function StartupRun(config: PortConfig, reply: nat -> int, k: nat): (run: Run<Outcome>)
    ensures |run.sent| >= 1 && run.sent[0] == ResetControl()
    ensures reply(k) != 0 ==> run == Run([ResetControl()], Fail(IOException(ResetFailed, reply(k))))
    ensures run.result == Pass <==> reply(k) == 0 && Acceptable(config) && reply(k + 1) == 0 && reply(k + 2) == 0
    ensures run.result == Pass ==> run.sent == [
      ResetControl(),
      BaudRateControl(EncodeBaudRate(config.baudRate).value),
      LineDataControl(LineConfig(config.dataBits, config.parity, config.stopBits).value)]
    ensures reply(k) == 0 ==>
      run == Run([ResetControl()] + ConfigureRun(config, reply, k + 1).sent, ConfigureRun(config, reply, k + 1).result)
    ensures reply(k) == 0 && config.baudRate > 0 && EncodeBaudRate(config.baudRate).Ok? && reply(k + 1) != 0 ==>
      run == Run([ResetControl(), BaudRateControl(EncodeBaudRate(config.baudRate).value)],
                 Fail(IOException(SetBaudRateFailed, reply(k + 1))))
    ensures reply(k) == 0 && Acceptable(config) && reply(k + 1) == 0 && reply(k + 2) != 0 ==>
      run == Run([ResetControl(),
                  BaudRateControl(EncodeBaudRate(config.baudRate).value),
                  LineDataControl(LineConfig(config.dataBits, config.parity, config.stopBits).value)],
                 Fail(IOException(SetParametersFailed, reply(k + 2))))
  {
    var result := reply(k);
    if result != 0 then Run([ResetControl()], Fail(IOException(ResetFailed, result)))
    else
      var configure := ConfigureRun(config, reply, k + 1);
      Run([ResetControl()] + configure.sent, configure.result)
  }

  // ---------------------------------------------------------------------
  // Endpoint discovery.

  predicate IsBulk(endpoint: Endpoint, direction: Direction)
  {
    endpoint.kind == Bulk && endpoint.direction == direction
  }

  /** The endpoint loop of OpenAsync for one direction, starting from the
      field's current value: each bulk endpoint of that direction replaces
      the one recorded before it. */
  function Discover(endpoints: seq<Endpoint>, direction: Direction, current: Option<Endpoint>): Option<Endpoint>
  {
    if endpoints == [] then current
    else Discover(endpoints[1..], direction, if IsBulk(endpoints[0], direction) then Some(endpoints[0]) else current)
  }

  /** With no bulk endpoint of the direction, the field keeps its value. */
  lemma {:induction false} DiscoverNoneKeeps(endpoints: seq<Endpoint>, direction: Direction, current: Option<Endpoint>)
    requires forall j :: 0 <= j < |endpoints| ==> !IsBulk(endpoints[j], direction)
    ensures Discover(endpoints, direction, current) == current
  {
    if endpoints != [] {
      assert !IsBulk(endpoints[0], direction);
      DiscoverNoneKeeps(endpoints[1..], direction, current);
    }
  }

  /** The last bulk endpoint of the direction wins, whatever was recorded
      before it. */
  lemma {:induction false} DiscoverLastWins(endpoints: seq<Endpoint>, direction: Direction, current: Option<Endpoint>, last: nat)
    requires last < |endpoints| && IsBulk(endpoints[last], direction)
    requires forall j :: last < j < |endpoints| ==> !IsBulk(endpoints[j], direction)
    ensures Discover(endpoints, direction, current) == Some(endpoints[last])
  {
    var next := if IsBulk(endpoints[0], direction) then Some(endpoints[0]) else current;
    var rest := endpoints[1..];
    if last == 0 {
      DiscoverNoneKeeps(rest, direction, next);
    } else {
      DiscoverLastWins(rest, direction, next, last - 1);
    }
  }

  // ---------------------------------------------------------------------
  // Read framing.

  /** What ReadDataAsync returns: the byte count after the status prefix,
      and the buffer after the prefix. */
  datatype ReadDataResult = ReadDataResult(length: int, data: seq<Byte>)

  /** The chip prefixes every bulk-in transfer with two status bytes. */
  const StatusLength := 2

  /** A transfer that delivered more than the status prefix ends the read
      loop; failures (negative results) do not. */
  predicate Arrives(reply: BulkInReply, count: int)
  {
    Delivered(reply, count) > StatusLength
  }

  /** The `j`-th bulk-in transfer delivers more than the status prefix. */
  predicate ArrivesAt(reply: nat -> BulkInReply, j: nat, count: int)
  {
    Arrives(reply(j), count)
  }

  /** The read buffer of `count` zero bytes as `new byte[count]` makes it. */
  function Zeros(count: nat): (r: seq<Byte>)
    ensures |r| == count
  {
    seq(count, _ => 0)
  }

  /** The read buffer after the bulk-in transfers `from` to `to` - 1, each
      refilling it in place. */
  function Refill(buffer: seq<Byte>, reply: nat -> BulkInReply, from: nat, to: nat): (r: seq<Byte>)
    decreases to - from
    ensures |r| == |buffer|
  {
    if to <= from then buffer else Fill(Refill(buffer, reply, from, to - 1), reply(to - 1))
  }

  /** The read result when the last transfer, the (to - 1)-th, delivered
      more than the status prefix: `data` is the whole buffer after the
      prefix, and its first `length` bytes are that transfer's payload
      after the prefix. */
  function Frame(buffer: seq<Byte>, reply: nat -> BulkInReply, from: nat, to: nat): (r: ReadDataResult)
    requires from < to && Arrives(reply(to - 1), |buffer|)
    ensures reply(to - 1).Received? && r.length + StatusLength == Delivered(reply(to - 1), |buffer|)
    ensures 0 < r.length <= |buffer| - StatusLength && |r.data| == |buffer| - StatusLength
    ensures r.data[..r.length] == reply(to - 1).bytes[StatusLength..r.length + StatusLength]
    ensures r.length == |buffer| - StatusLength ==> r.data == reply(to - 1).bytes[StatusLength..|buffer|]
  {
    var filled := Refill(buffer, reply, from, to);
    ReadDataResult(Delivered(reply(to - 1), |buffer|) - StatusLength, filled[StatusLength..])
  }

  /** Transfers that deliver no more than the status prefix never touch
      the buffer past it: a zeroed buffer stays zero there. */
  lemma {:induction false} RefillKeepsZeroTail(count: nat, reply: nat -> BulkInReply, lo: nat, hi: nat)
    requires forall j :: lo <= j < hi ==> !ArrivesAt(reply, j, count)
    decreases hi - lo
    ensures forall i :: StatusLength <= i < count ==> Refill(Zeros(count), reply, lo, hi)[i] == 0
  {
    if hi > lo {
      RefillKeepsZeroTail(count, reply, lo, hi - 1);
      assert !ArrivesAt(reply, hi - 1, count);
      var before := Refill(Zeros(count), reply, lo, hi - 1);
      forall i | StatusLength <= i < count
        ensures Refill(Zeros(count), reply, lo, hi)[i] == 0
      {
        match reply(hi - 1)
        case Received(bytes) =>
          var n := Delivered(reply(hi - 1), count);
          assert Fill(before, reply(hi - 1)) == bytes[..n] + before[n..];
          assert Fill(before, reply(hi - 1))[i] == before[i];
        case Failed(_) =>
      }
    }
  }

  /** The data of a read on a fresh zeroed buffer, when only its last
      transfer brought more than the status prefix: that transfer's payload
      after the prefix, then zeros up to the end of the buffer. */
  lemma DrainedFrame(count: nat, reply: nat -> BulkInReply, lo: nat, hi: nat)
    requires lo < hi && Arrives(reply(hi - 1), count)
    requires forall j :: lo <= j < hi - 1 ==> !ArrivesAt(reply, j, count)
    ensures reply(hi - 1).Received?
    ensures var n := Delivered(reply(hi - 1), count);
            && StatusLength < n <= count && n <= |reply(hi - 1).bytes|
            && Frame(Zeros(count), reply, lo, hi).data
               == reply(hi - 1).bytes[StatusLength..n] + Zeros(count - n)
  {
    RefillKeepsZeroTail(count, reply, lo, hi - 1);
    var before := Refill(Zeros(count), reply, lo, hi - 1);
    var bytes := reply(hi - 1).bytes;
    var n := Delivered(reply(hi - 1), count);
    assert Fill(before, reply(hi - 1)) == bytes[..n] + before[n..];
    assert before[n..] == Zeros(count - n);
  }

  /** The state of the read loop after the transfers `lo` to `hi` - 1:
      `buffer` holds what they left in the zeroed buffer, `i` is the last
      count delivered (0 before the first transfer), no transfer but the
      last brought more than the status prefix, and while the loop goes
      on neither did the last. */
  ghost predicate Reading(reply: nat -> BulkInReply, count: nat, lo: nat, hi: nat, i: int, buffer: seq<Byte>)
  {
    && lo <= hi
    && buffer == Refill(Zeros(count), reply, lo, hi)
    && i == (if hi == lo then 0 else Delivered(reply(hi - 1), count))
    && (forall j :: lo <= j < hi - 1 ==> !ArrivesAt(reply, j, count))
    && (i <= StatusLength ==> forall j :: lo <= j < hi ==> !ArrivesAt(reply, j, count))
  }

  /** One more turn of the read loop keeps its state described. */
  lemma ReadingStep(reply: nat -> BulkInReply, count: nat, lo: nat, hi: nat, i: int, buffer: seq<Byte>)
    requires Reading(reply, count, lo, hi, i, buffer) && i <= StatusLength
    ensures Reading(reply, count, lo, hi + 1, Delivered(reply(hi), count), Fill(buffer, reply(hi)))
  {
  }

  /** What a read returns when the transfers `lo` to `hi` - 1 were its
      transfers: only the last brought more than the status prefix, and
      the result is that transfer's frame, its payload after the prefix
      followed by the zeros the buffer started with. */
  ghost predicate ReadOutcome(reply: nat -> BulkInReply, count: int, lo: nat, hi: nat, result: ReadDataResult)
  {
    && count > StatusLength
    && lo < hi
    && ArrivesAt(reply, hi - 1, count)
    && (forall j :: lo <= j < hi - 1 ==> !ArrivesAt(reply, j, count))
    && result == Frame(Zeros(count), reply, lo, hi)
    && reply(hi - 1).Received?
    && var n := Delivered(reply(hi - 1), count);
       && n <= |reply(hi - 1).bytes|
       && result.length == n - StatusLength
       && result.data == reply(hi - 1).bytes[StatusLength..n] + Zeros(count - n)
  }

  /** When the read loop stops, it has produced the read's outcome. */
  lemma ReadingDone(reply: nat -> BulkInReply, count: nat, lo: nat, hi: nat, i: int, buffer: seq<Byte>)
    requires Reading(reply, count, lo, hi, i, buffer) && i > StatusLength
    ensures ReadOutcome(reply, count, lo, hi, ReadDataResult(i - StatusLength, buffer[StatusLength..]))
  {
    DrainedFrame(count, reply, lo, hi);
  }
}
