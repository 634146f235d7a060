/** The FT231X serial port: its USB connection, its two bulk endpoints and
    its open flag, updated in place by OpenAsync, CloseAsync and the
    transfers. The Android permission request and UsbManager.OpenDevice are
    parameters of Open; the connection answers transfers from its script. */
module Ft231x {
  import opened Errors
  import opened Usb
  import opened BaudRate
  import opened LineControl
  import opened Protocol

  class SerialPort {
    /** The settings given to the constructor (readonly in the port). */
    const config: PortConfig
    /** The endpoints of the device's interface 0, in GetEndpoint order. */
    const endpoints: seq<Endpoint>
    var connection: UsbConnection?
    var endpointIn: Option<Endpoint>
    var endpointOut: Option<Endpoint>
    var isOpen: bool

    constructor (config: PortConfig, endpoints: seq<Endpoint>)
      ensures this.config == config && this.endpoints == endpoints
      ensures connection == null && endpointIn == Option.None && endpointOut == Option.None && !isOpen
    {
      this.config := config;
      this.endpoints := endpoints;
      connection := null;
      endpointIn, endpointOut := Option.None, Option.None;
      isOpen := false;
    }

    /** Encodes `baudRate`, sends the set-baud-rate request and returns the
        rate the chip will run at. */
    method SetBaudRate(baudRate: int) returns (r: Result<int>)
      requires baudRate > 0
      modifies connection
      ensures connection == null ==> r == Err(NotConnectedException)
      ensures connection != null ==> connection.OnlyControlLogChanged()
      ensures connection != null ==>
                var run := BaudRateRun(baudRate, connection.controlReply, |old(connection.controlLog)|);
                && connection.controlLog == old(connection.controlLog) + run.sent
                && r == run.result
    {
      if connection == null {
        return Err(NotConnectedException);
      }
      var encoded := EncodeBaudRate(baudRate);
      if encoded.Err? {
        return Err(encoded.error);
      }
      var result := connection.ControlTransfer(BaudRateControl(encoded.value));
      if result != 0 {
        return Err(IOException(SetBaudRateFailed, result));
      }
      return Ok(encoded.value.effective);
    }

    /** Checks and sends the baud rate, then checks and sends the line
        settings. */
    method SetParameters(baudRate: int, dataBits: int, stopBits: StopBits, parity: Parity) returns (outcome: Outcome)
      modifies connection
      ensures connection == null ==> outcome == Fail(NotConnectedException)
      ensures connection != null ==> connection.OnlyControlLogChanged()
      ensures connection != null ==>
                var run := ConfigureRun(PortConfig(baudRate, dataBits, stopBits, parity),
                                        connection.controlReply, |old(connection.controlLog)|);
                && connection.controlLog == old(connection.controlLog) + run.sent
                && outcome == run.result
    {
      if connection == null {
        return Fail(NotConnectedException);
      }
      if baudRate <= 0 {
        return Fail(IllegalArgumentException(InvalidBaudRate));
      }
      var baud := SetBaudRate(baudRate);
      if baud.Err? {
        return Fail(baud.error);
      }
      var word := LineConfig(dataBits, parity, stopBits);
      if word.Err? {
        return Fail(word.error);
      }
      var result := connection.ControlTransfer(LineDataControl(word.value));
      if result != 0 {
        return Fail(IOException(SetParametersFailed, result));
      }
      return Pass;
    }

    /** The endpoint loop of OpenAsync: every bulk endpoint replaces the
        recorded one of its direction. */
    method DiscoverEndpoints()
      modifies this`endpointIn, this`endpointOut
      ensures endpointIn == Discover(endpoints, In, old(endpointIn))
      ensures endpointOut == Discover(endpoints, Out, old(endpointOut))
    {
      for index := 0 to |endpoints|
        invariant Discover(endpoints[index..], In, endpointIn) == Discover(endpoints, In, old(endpointIn))
        invariant Discover(endpoints[index..], Out, endpointOut) == Discover(endpoints, Out, old(endpointOut))
      {
        var point := endpoints[index];
        assert endpoints[index..][1..] == endpoints[index + 1..];
        if point.kind == Bulk {
          if point.direction == In {
            endpointIn := Some(point);
          } else if point.direction == Out {
            endpointOut := Some(point);
          }
        }
      }
    }

    /** OpenAsync. `granted` is the answer to the permission request and
        `device` what UsbManager.OpenDevice returns. The connection is
        stored before it is checked; a failure leaves the open flag and the
        endpoints as they were. */
    method Open(granted: bool, device: UsbConnection?) returns (outcome: Outcome)
      modifies this, device
      ensures !granted ==> outcome == Pass && unchanged(this) && (device != null ==> unchanged(device))
      ensures granted ==> connection == device
      ensures granted && device == null ==>
                && outcome == Fail(ConnectFailedException)
                && isOpen == old(isOpen) && endpointIn == old(endpointIn) && endpointOut == old(endpointOut)
      ensures granted && device != null ==>
                var run := StartupRun(config, device.controlReply, |old(device.controlLog)|);
                && device.claimed
                && device.controlLog == old(device.controlLog) + run.sent
                && device.inLog == old(device.inLog) && device.outLog == old(device.outLog)
                && device.closed == old(device.closed)
                && outcome == run.result
                && (outcome == Pass ==>
                      && isOpen
                      && endpointIn == Discover(endpoints, In, old(endpointIn))
                      && endpointOut == Discover(endpoints, Out, old(endpointOut)))
                && (outcome != Pass ==>
                      isOpen == old(isOpen) && endpointIn == old(endpointIn) && endpointOut == old(endpointOut))
    {
      if !granted {
        return Pass;
      }
      connection := device;
      if connection == null {
        return Fail(ConnectFailedException);
      }
      connection.ClaimInterface();
      var result := connection.ControlTransfer(ResetControl());
      if result != 0 {
        return Fail(IOException(ResetFailed, result));
      }
      outcome := SetParameters(config.baudRate, config.dataBits, config.stopBits, config.parity);
      if outcome.Fail? {
        return;
      }
      DiscoverEndpoints();
      isOpen := true;
    }

    /** CloseAsync: closes the connection if there is one and clears the
        open flag; the connection field keeps its value. */
    method Close()
      modifies this`isOpen, connection
      ensures !isOpen
      ensures connection != null ==>
                && connection.closed
                && connection.controlLog == old(connection.controlLog)
                && connection.inLog == old(connection.inLog) && connection.outLog == old(connection.outLog)
                && connection.claimed == old(connection.claimed)
    {
      if connection != null {
        connection.Close();
      }
      isOpen := false;
    }

    /** ReadDataAsync: repeats the bulk-in transfer into one `count`-byte
        buffer until a transfer delivers more than the status prefix, then
        returns the delivered count and the buffer without the prefix.
        The read ends only if some later reply delivers more than two
        bytes. */
    method ReadData(count: int) returns (result: ReadDataResult)
      requires connection != null
      requires exists k: nat :: |connection.inLog| <= k && ArrivesAt(connection.bulkInReply, k, count)
      modifies connection`inLog
      ensures count > StatusLength
      ensures ReadOutcome(connection.bulkInReply, count, |old(connection.inLog)|, |connection.inLog|, result)
      ensures connection.inLog[..|old(connection.inLog)|] == old(connection.inLog)
      ensures forall j :: |old(connection.inLog)| <= j < |connection.inLog| ==> connection.inLog[j] == endpointIn
    {
      var conn, endpoint := connection, endpointIn;
      ghost var start := |conn.inLog|;
      ghost var stop :| start <= stop && ArrivesAt(conn.bulkInReply, stop, count);
      assert count > StatusLength;
      var buffer := new Byte[count](_ => 0);
      var i := 0;
      assert buffer[..] == Zeros(count);
      while i <= StatusLength
        invariant conn == connection && buffer.Length == count
        invariant start <= |conn.inLog| <= stop + 1
        invariant conn.inLog[..start] == old(conn.inLog)
        invariant forall j :: start <= j < |conn.inLog| ==> conn.inLog[j] == endpoint
        invariant Reading(conn.bulkInReply, count, start, |conn.inLog|, i, buffer[..])
        decreases stop + 1 - |conn.inLog|
      {
        ReadingStep(conn.bulkInReply, count, start, |conn.inLog|, i, buffer[..]);
        i := conn.BulkTransferIn(endpoint, buffer);
      }
      ReadingDone(conn.bulkInReply, count, start, |conn.inLog|, i, buffer[..]);
      result := ReadDataResult(i - StatusLength, buffer[StatusLength..]);
    }

    /** SendDataAsync: one bulk-out transfer of all of `data`; its result
        is not looked at. */
    method SendData(data: seq<Byte>)
      requires connection != null
      modifies connection`outLog
      ensures connection.outLog == old(connection.outLog) + [BulkOut(endpointOut, data)]
    {
      connection.BulkTransferOut(endpointOut, data);
    }
  }

  /** The end-to-end scenario: a port with the default settings opens on a
      device that acknowledges every control transfer, and a 64-byte read
      whose first transfer brings two status bytes and "HI" returns length
      2 and "HI" at the start of its data. */
  method OpenThenReadHi() returns (result: ReadDataResult)
    ensures result.length == 2 && |result.data| == 62 && result.data[..2] == [72, 73]
  {
    var device := new UsbConnection((k: nat) => 0,
                                    (k: nat) => if k == 0 then Received([0x01, 0x60, 72, 73]) else Failed(-1));
    var port := new SerialPort(DefaultConfig, [Endpoint(0x81, Bulk, In), Endpoint(0x02, Bulk, Out)]);
    Encode9600();
    assert Acceptable(DefaultConfig);
    var outcome := port.Open(true, device);
    assert outcome == Pass;
    assert device.bulkInReply(0) == Received([0x01, 0x60, 72, 73]);
    assert ArrivesAt(device.bulkInReply, 0, 64);
    result := port.ReadData(64);
  }

  /** Close twice: the second call finds the connection already closed and
      the flag already clear, and changes nothing. */
  method CloseTwice(port: SerialPort)
    modifies port, port.connection
    ensures !port.isOpen && port.connection == old(port.connection)
    ensures port.connection != null ==> port.connection.closed && port.connection.controlLog == old(port.connection.controlLog)
  {
    port.Close();
    ghost var afterFirst := port.isOpen;
    ghost var closedFirst := if port.connection != null then port.connection.closed else false;
    port.Close();
    assert port.isOpen == afterFirst;
    assert port.connection != null ==> port.connection.closed == closedFirst;
  }

  /** A second OpenAsync whose OpenDevice returns null after a successful
      first one: the connection field becomes null while IsOpen stays true. */
  method ReopenWithoutDevice() returns (open: bool, connected: bool)
    ensures open && !connected
  {
    var device := new UsbConnection((k: nat) => 0, (k: nat) => Failed(-1));
    var port := new SerialPort(DefaultConfig, []);
    Encode9600();
    var first := port.Open(true, device);
    assert first == Pass;
    var second := port.Open(true, null);
    open, connected := port.isOpen, port.connection != null;
  }
}
