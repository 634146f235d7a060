# FT231X USB-serial port: a Dafny model

This project models the protocol core of the FT231X serial port for
Android (`SerialPort` in `FT231X/Platforms/Android/SerialPort.cs`), and
proves properties of that model:

- **Baud-rate encoder** (`BaudRate`). This is the arithmetic of `SetBaudRate`. It covers:
  - the two fixed bands: 3 Mbaud and 2 Mbaud;
  - the 48 MHz / 8 fractional divisor with round-half-up;
  - the rejections for too high, too low (divisor over 14 bits) and
    deviation of 3.1 % or more;
  - the subdivisor table that packs the eighths into bits 14-15 of the
    value and into the index.
- **Line-control encoder** (`LineControl`). These are the three switches
  of `SetParameters`: data bits, parity and stop bits, combined into one
  configuration word or rejected.
- **Control-transfer transcripts** (`Protocol`). These state which requests
  `SetBaudRate`, `SetParameters` and the start of `OpenAsync` send, in which
  order, and what they return. The connection's replies are given as a
  script. This module also holds the endpoint-discovery loop and the framing
  of the read buffer.
- **The port object** (`Ft231x.SerialPort`). This is a class with the fields
  that `OpenAsync`, `CloseAsync`, `ReadDataAsync` and `SendDataAsync`
  update in place:
  - the connection;
  - the bulk IN and OUT endpoints;
  - the open flag.

  Each method is proved against the transcript and framing functions.

The Android USB API is an oracle (`Usb.UsbConnection`):
- The k-th control transfer returns `controlReply(k)`.
- The k-th bulk-in transfer answers `bulkInReply(k)`.
- Every request is logged.

The permission request and the result of `UsbManager.OpenDevice` are
parameters of `Open`.

Bit operations on non-negative values and disjoint fields (`>>`, `&`, `|`)
are written as `/`, `%` and `+`. No intermediate value of the baud
arithmetic exceeds 48,000,001, so the model's unbounded integers agree with
C#'s 32-bit `int`.

What is proved beyond the contracts:
- Below 1,750,000 baud, a rate is rejected as too low exactly when it is
  183 baud or less (`TooLowExactlyUpTo183` for the approximation,
  `EncodeTooLowExactlyUpTo183` for the encoder).
- Every rate from 184 to 1,454,545 baud is accepted (`AcceptedFrom184To1454545`).
- In the 3 Mbaud band, the accepted rates are exactly 2,909,797 to
  3,095,975. In the 2 Mbaud band they are exactly 1,939,865 to 2,063,983
  (`EncodeBaudRate`).
- The divisor in eighths is the integer nearest to 24,000,000 / b, and the
  effective rate is the integer nearest to 24,000,000 / divisor
  (`GeneralBranchNearest`). The same holds for the divisor the chip reads
  back from an accepted setting's value and index (`EncodeBaudRate`).
- The chip reads back the subdivisor that the table packs (`PackSubdivisor`).
- The chip reads back the data bits, parity and stop bits of every accepted
  configuration word (`LineConfigRoundTrip`).
- The last bulk endpoint of each direction wins (`DiscoverLastWins`).
- The read result's first `length` bytes are the payload of the transfer
  that ended the loop, after its two status bytes (`Frame`). The rest of
  `data` is zeros: the earlier transfers wrote at most the two status
  bytes (`DrainedFrame`).

Behaviour of the code worth knowing:
- **3,500,000 baud.** The code puts it in the 3 Mbaud band (`> 3500000` is
  the only rejection above it), and the tolerance check then rejects it.
- **Failure in `OpenAsync`.**
  - A failed `OpenAsync` neither closes the connection nor clears `_isOpen`.
  - When `OpenDevice` returns null, the field is set to null before the
    check.
  - So after a successful open, a second open whose device is missing
    leaves `IsOpen` true with no connection (`ReopenWithoutDevice`).
  - `CloseAsync` does not clear the connection field.
- **Baud rate sent before the line settings are validated.** The baud-rate
  request goes out before the line settings are checked. An invalid data
  bits, parity or stop bits value is therefore reported with the new baud
  rate already programmed (`InvalidLineLeavesBaudRateSet`).
- **Request type.** `REQTYPE_HOST_TO_DEVICE` is `UsbTypeVendor | 128`, which
  is 0xC0. Its direction bit says device-to-host (section 9.3 of the USB 2.0
  specification). The model keeps the value as written
  (`RequestTypeIsVendorDeviceToHost`).
- **Comment on the deviation check.** The comment at that check says a
  deviation rejection "can happen only > 1.5Mbaud". In fact 1,454,546 baud
  is rejected: divisor 2.0 gives 1,500,000 baud, 3.125 % off
  (`DeviationBelow1500000`). No rate of 1,454,545 baud or less is rejected
  for deviation.

## Model

| member | source | states |
|---|---|---|
| `BaudRate.ApproximateBaudRate` | FT231X/Platforms/Android/SerialPort.cs:119-146 | A rate is rejected as too high exactly when it is above 3,500,000. From 2,500,000 to 3,500,000 the result is divisor 0, subdivisor 0, 3,000,000 baud; from 1,750,000 to 2,499,999 it is divisor 1, subdivisor 0, 2,000,000 baud. Every other error is "too low". An accepted divisor fits in 14 bits, the subdivisor is 0..7 and the effective rate is positive. |
| `BaudRate.QuotientBounds` | FT231X/Platforms/Android/SerialPort.cs:139-145 | Below 1,750,000 baud, the rounded divisor in eighths is at least 14. So the effective-rate division never divides by zero. |
| `BaudRate.RoundedQuotientNearest` | FT231X/Platforms/Android/SerialPort.cs:139-146 | `(48,000,000 / m + 1) >> 1` is 24,000,000 / m rounded half up: -m < 2·n·m − 48,000,000 ≤ m. |
| `BaudRate.GeneralBranchNearest` | FT231X/Platforms/Android/SerialPort.cs:139-146 | Every rate from 184 baud up to 1,749,999 gets a divisor. Its d = 8·divisor + subdivisor is positive and nearest to 24,000,000 / b (−b < 2·d·b − 48,000,000 ≤ b). The effective rate is nearest to 24,000,000 / d. |
| `BaudRate.TooLowExactlyUpTo183` | FT231X/Platforms/Android/SerialPort.cs:139-144 | Below 1,750,000 baud, "Baud rate to low" is raised if and only if the rate is at most 183 baud. |
| `BaudRate.AcceptedFrom184To1454545` | FT231X/Platforms/Android/SerialPort.cs:137-150 | Every rate from 184 to 1,454,545 baud passes both the divisor-width and the 3.1 % deviation checks. |
| `BaudRate.DeviationBelow1500000` | FT231X/Platforms/Android/SerialPort.cs:148-150 | 1,454,546 baud is rejected for deviation, although the comment places such rejections above 1.5 Mbaud. |
| `BaudRate.PackSubdivisor` | FT231X/Platforms/Android/SerialPort.cs:151-163 | The value is below 0x10000 and keeps the divisor in bits 0-13. The index is 0 or 1. The chip's reading of (index, bits 15-14) gives back the subdivisor in eighths. |
| `BaudRate.PackInjective` | FT231X/Platforms/Android/SerialPort.cs:151-163 | Two (divisor, subdivisor) pairs give the same (value, index) if and only if they are equal. |
| `BaudRate.EncodeBaudRate` | FT231X/Platforms/Android/SerialPort.cs:119-163 | Rates above 3,500,000 are rejected, and every error of the approximation (too high, too low) is raised unchanged. A rate is accepted if and only if its approximation exists and is within 3.1 %. Each band's accepted range is given exactly, in both directions, and an accepted band rate is set as (value 0, index 0, 3,000,000 baud) or (value 1, index 0, 2,000,000 baud). From 184 to 1,749,999 baud, the divisor in eighths that the chip reads back from an accepted value and index is nearest to 24,000,000 / b, and the effective rate is nearest to 24,000,000 / that divisor. The deviation error is raised if and only if the approximation exists and misses the rate by 3.1 % or more. Every accepted setting is within 3.1 % (1000·\|e − b\| < 31·b) and has a 16-bit value and an index of 0 or 1. Every error is an UnsupportedOperationException. |
| `BaudRate.EncodeTooLowExactlyUpTo183` | FT231X/Platforms/Android/SerialPort.cs:139-144 | Below 1,750,000 baud, the encoder raises "Baud rate to low" if and only if the rate is at most 183 baud. |
| `BaudRate.Encode1500000` | FT231X/Platforms/Android/SerialPort.cs:137-163 | 1,500,000 baud encodes as value 2 (divisor 2, subdivisor 0), index 0, exactly 1,500,000 baud. |
| `BaudRate.Encode9600` | FT231X/Platforms/Android/SerialPort.cs:137-163 | 9600 baud encodes as value 0x4138 (divisor 312, subdivisor 4), index 0, exactly 9600 baud. |
| `LineControl.LineConfig` | FT231X/Platforms/Android/SerialPort.cs:59-105 | Data bits 5/6 and 1.5 stop bits raise UnsupportedOperationException. Other data bits, unknown parity and unknown stop bits raise IllegalArgumentException, checked in the order data bits, parity, stop bits. The word is produced exactly for 7/8 data bits, a declared parity and One/Two stop bits. Its low byte is the data bits. |
| `LineControl.LineConfigRoundTrip` | FT231X/Platforms/Android/SerialPort.cs:59-105 | Decoding an accepted word as the chip does (data bits from bits 0-7, parity from bits 8-10, stop bits from bits 11-13 with 0 one, 1 one and a half, 2 two) gives back its data bits, parity and stop bits. Together with the word being below 0x2000, this fixes every bit of the word. |
| `LineControl.LineConfigInjective` | FT231X/Platforms/Android/SerialPort.cs:59-105 | Distinct accepted configurations give distinct words. |
| `LineControl.LineConfigFields` | FT231X/Platforms/Android/SerialPort.cs:74-105 | Parity adds exactly 0x000/0x100/0x200/0x300/0x400 for None/Odd/Even/Mark/Space, and Two stop bits add 0x1000, whatever the other settings. |
| `Protocol.RequestTypeIsVendorDeviceToHost` | FT231X/Platforms/Android/SerialPort.cs:12 | The request type is 0xC0: a vendor request whose direction bit is set (device-to-host). |
| `Protocol.BaudRateRun` | FT231X/Platforms/Android/SerialPort.cs:119-171 | An unencodable rate sends nothing and returns its encoder error. Otherwise exactly the set-baud-rate request is sent. The effective rate is returned if and only if the transfer returns 0; it is then exactly the encoder's effective rate, within 3.1 % of the request. A non-zero transfer result r gives IOException "SetBaudRate failed" carrying r. |
| `Protocol.ConfigureRun` | FT231X/Platforms/Android/SerialPort.cs:52-112 | A baud rate ≤ 0 sends nothing. A positive rate the encoder rejects sends nothing and fails with the encoder's UnsupportedOperationException. The first request sent is always the baud-rate request. The configuration succeeds if and only if the settings are acceptable and both transfers return 0. It then sends exactly [baud-rate, line-data]. A failed baud-rate transfer stops after that one request with IOException "SetBaudRate failed". With acceptable settings, a failed line-data transfer follows both requests with IOException "SetParameters failed"; each IOException carries the transfer's result. |
| `Protocol.InvalidLineLeavesBaudRateSet` | FT231X/Platforms/Android/SerialPort.cs:57-105 | With an encodable, acknowledged baud rate and invalid line settings, the baud-rate request has been sent when the line-setting error is raised. |
| `Protocol.StartupRun` | FT231X/Platforms/Android/SerialPort.cs:195-200 | The reset request (0, value 0, index 1) is always sent first. A non-zero reset result stops there with IOException. After a successful reset, the rest is exactly `ConfigureRun` on the following transfers: its requests follow the reset, and its outcome, settings errors included, is the start-up's. Start-up succeeds if and only if all three transfers return 0 and the settings are acceptable, and it then sends exactly [reset, baud-rate, line-data]. After a successful reset, a failed baud-rate transfer ends with [reset, baud-rate] and IOException "SetBaudRate failed", and a failed line-data transfer ends with all three requests and IOException "SetParameters failed". |
| `Protocol.DiscoverNoneKeeps` | FT231X/Platforms/Android/SerialPort.cs:201-215 | With no bulk endpoint of a direction, that endpoint field keeps its previous value. |
| `Protocol.DiscoverLastWins` | FT231X/Platforms/Android/SerialPort.cs:201-215 | The last bulk endpoint of a direction ends up in the field, whatever came before it. |
| `Protocol.Refill` | FT231X/Platforms/Android/SerialPort.cs:222-228 | Refilling the read buffer in place keeps its length. |
| `Protocol.Frame` | FT231X/Platforms/Android/SerialPort.cs:229-233 | The final transfer delivered n > 2 bytes, and `length` = n − 2 > 0. `data` has count − 2 bytes, is not truncated to `length`, and starts with the transfer's bytes after the 2-byte status prefix. It is exactly that payload when the whole buffer was filled. |
| `Protocol.RefillKeepsZeroTail` | FT231X/Platforms/Android/SerialPort.cs:222-228 | Transfers that deliver at most the 2 status bytes leave a zeroed read buffer zero from byte 2 on. |
| `Protocol.DrainedFrame` | FT231X/Platforms/Android/SerialPort.cs:222-233 | When only the last transfer delivers n > 2 bytes, `data` is that transfer's bytes 2..n followed by count − n zeros. |
| `Protocol.ReadingStep` | FT231X/Platforms/Android/SerialPort.cs:225-228 | One more turn of the read loop, taken while the last count is at most 2, keeps the loop state: the buffer is the zeroed buffer refilled by the transfers so far, and the last count is what the newest transfer delivered. |
| `Protocol.ReadingDone` | FT231X/Platforms/Android/SerialPort.cs:222-233 | When the loop's count exceeds 2, the result is the read's outcome: only the last transfer delivered more than 2 bytes, the result is its `Frame`, `length` is its count minus 2, and `data` is its payload followed by zeros. |
| `Ft231x.SerialPort.constructor` | FT231X/Platforms/Android/SerialPort.cs:36-46 | The settings are stored. There is no connection, no endpoints, and the port is not open. |
| `Ft231x.SerialPort.SetBaudRate` | FT231X/Platforms/Android/SerialPort.cs:115-172 | Without a connection it returns NotConnectedException. Otherwise it appends `BaudRateRun`'s requests to the connection's log, returns its result, and changes nothing else. |
| `Ft231x.SerialPort.SetParameters` | FT231X/Platforms/Android/SerialPort.cs:48-113 | Without a connection it returns NotConnectedException. Otherwise it appends `ConfigureRun`'s requests to the log, returns its outcome, and changes nothing else. |
| `Ft231x.SerialPort.DiscoverEndpoints` | FT231X/Platforms/Android/SerialPort.cs:201-215 | Each endpoint field becomes `Discover` of the interface's endpoints, starting from its old value. |
| `Ft231x.SerialPort.Open` | FT231X/Platforms/Android/SerialPort.cs:187-218 | Denied permission changes nothing and raises nothing. A null device is stored and raises ConnectFailedException. Otherwise the interface is claimed and `StartupRun`'s requests are sent. The port is marked open with the discovered endpoints only if start-up passes. On failure the open flag and the endpoints keep their old values. |
| `Ft231x.SerialPort.Close` | FT231X/Platforms/Android/SerialPort.cs:176-181 | The open flag is cleared, and an existing connection is closed and otherwise untouched. The connection field and the endpoints are not changed. |
| `Ft231x.SerialPort.ReadData` | FT231X/Platforms/Android/SerialPort.cs:220-234 | It performs transfers on the IN endpoint until the first that delivers more than 2 bytes; every earlier one, failures included, delivered at most 2. It returns `Frame` of a zeroed `count`-byte buffer refilled by exactly those transfers: `length` is the last count minus 2, and `data` is that transfer's bytes 2..n followed by zeros up to `count` − 2 bytes. |
| `Ft231x.SerialPort.SendData` | FT231X/Platforms/Android/SerialPort.cs:236-239 | Exactly one bulk-out transfer of all of `data`, on the OUT endpoint. Its result is ignored. |
| `Ft231x.CloseTwice` | FT231X/Platforms/Android/SerialPort.cs:176-181 | Closing twice leaves the port closed, the connection field unchanged and the connection closed. |
| `Ft231x.OpenThenReadHi` | FT231X/Platforms/Android/SerialPort.cs:187-234 | With the default settings and a device that acknowledges everything, Open succeeds. A 64-byte read whose first reply is two status bytes then "HI" returns length 2, 62 data bytes, and "HI" first. |
| `Ft231x.ReopenWithoutDevice` | FT231X/Platforms/Android/SerialPort.cs:187-218 | After a successful open, an open whose device is missing leaves IsOpen true and the connection null. |

## Left out

- **Permission request.** The broadcast-receiver permission plumbing of
  `UsbManagerExtensions.cs` is not part of this model. Permission is the
  `granted` parameter of `Open`.
- **Device and interface selection.** The constructor picks `DeviceList[0]`
  and interface 0, which is platform glue. The device's endpoints are a
  constructor parameter.
- **Android USB calls.** `OpenDevice`, `ClaimInterface`, `ControlTransfer`
  and the bulk transfers are oracles and are not modelled inside:
  - `ClaimInterface`'s result is ignored by the source, so it is not
    modelled.
  - A transfer on a null endpoint is passed to the oracle like any other.
- **Deviation check in floating point.** The check at :148 is in `double`;
  the model states it as 1000·|effective − b| < 31·b over integers. Double
  rounding at the exact boundary is not modelled.
- **Exception messages.** The message strings and their formatting are not
  modelled. The model records only the exception class, the cause and the
  transfer result.
- **Async and cancellation.** `async`/`await` and the `CancellationToken`
  parameters are left out; the source accepts them and ignores them. The
  empty `Dispose` is left out too.
- `Ft231x.SerialPort.ReadData`: requires that some later bulk-in reply
  delivers more than 2 bytes. Without one, the source's loop never ends,
  and that case includes every `count` ≤ 2. A negative `count`, which makes
  `new byte[count]` throw, is excluded by the same requirement.
- `Ft231x.SerialPort.ReadData` and `Ft231x.SerialPort.SendData`: require a
  connection. The source dereferences it with `!`, which throws a
  NullReferenceException when it is missing.
- **Bulk timeouts.** The bulk transfers' timeout argument (0, no limit) is
  not recorded. Control requests record it.
- **Write result.** The bulk-out transfer's result is not modelled, because
  `SendDataAsync` discards it.
