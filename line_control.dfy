/** The line-control word of SetParameters: data bits in the low byte,
    parity in bits 8-10 and the stop bits in bits 11-13 (0 one, 1 one and
    a half, 2 two). C#'s `|=` sets disjoint bit fields here, so it is
    written as `+`. */
module LineControl {
  import opened Errors

  /** System.IO.Ports.Parity (None 0, Odd 1, Even 2, Mark 3, Space 4);
      `Undefined(code)` is a value of the enumeration's underlying integer
      outside 0-4, or, from `DecodeLineConfig`, a reserved parity field
      of the word. */
  datatype Parity = None | Odd | Even | Mark | Space | Undefined(code: int)

  /** System.IO.Ports.StopBits (None 0, One 1, Two 2, OnePointFive 3);
      `Undefined(code)` is a value of the enumeration's underlying integer
      outside 0-3, or, from `DecodeLineConfig`, a reserved stop-bit field
      of the word. */
  datatype StopBits = None | One | Two | OnePointFive | Undefined(code: int)

  /** The 3-bit parity field of the word for a declared parity value. */
  function ParityField(parity: Parity): int
  {
    match parity
    case None => 0
    case Odd => 1
    case Even => 2
    case Mark => 3
    case Space => 4
    case Undefined(_) => 0
  }

  /** The switches of SetParameters: the configuration word, or the
      exception raised for the first of data bits, parity and stop bits
      (checked in that order) that is not accepted. */
  function LineConfig(dataBits: int, parity: Parity, stopBits: StopBits): (r: Result<int>)
    ensures dataBits == 5 || dataBits == 6 ==> r == Err(UnsupportedOperationException(UnsupportedDataBits))
    ensures dataBits !in {5, 6, 7, 8} ==> r == Err(IllegalArgumentException(InvalidDataBits))
    ensures dataBits in {7, 8} && parity.Undefined? ==> r == Err(IllegalArgumentException(UnknownParity))
    ensures dataBits in {7, 8} && !parity.Undefined? && stopBits == StopBits.OnePointFive
      ==> r == Err(UnsupportedOperationException(UnsupportedStopBits))
    ensures dataBits in {7, 8} && !parity.Undefined? && (stopBits.None? || stopBits.Undefined?)
      ==> r == Err(IllegalArgumentException(UnknownStopBits))
    ensures r.Ok? <==> dataBits in {7, 8} && !parity.Undefined? && stopBits in {StopBits.One, StopBits.Two}
    ensures r.Ok? ==> 0 <= r.value < 0x2000 && r.value % 0x100 == dataBits
  {
    // `_config = dataBits` followed by `_config |= dataBits` leaves dataBits.
    if dataBits == 5 || dataBits == 6 then Err(UnsupportedOperationException(UnsupportedDataBits))
    else if dataBits != 7 && dataBits != 8 then Err(IllegalArgumentException(InvalidDataBits))
    else if parity.Undefined? then Err(IllegalArgumentException(UnknownParity))
    else
      var config := dataBits + ParityField(parity) * 0x100;
      match stopBits
      case One => Ok(config)
      case OnePointFive => Err(UnsupportedOperationException(UnsupportedStopBits))
      case Two => Ok(config + 0x1000)
      case _ => Err(IllegalArgumentException(UnknownStopBits))
  }

  /** The chip's reading of a configuration word: data bits from bits 0-7,
      parity from bits 8-10 and stop bits from bits 11-13. */
  function DecodeLineConfig(word: int): (int, Parity, StopBits)
  {
    var field := (word / 0x100) % 8;
    var parity :=
      if field == 0 then Parity.None
      else if field == 1 then Odd
      else if field == 2 then Even
      else if field == 3 then Mark
      else if field == 4 then Space
      else Parity.Undefined(field);
    var stop := (word / 0x800) % 8;
    var stopBits :=
      if stop == 0 then StopBits.One
      else if stop == 1 then OnePointFive
      else if stop == 2 then StopBits.Two
      else StopBits.Undefined(stop);
    (word % 0x100, parity, stopBits)
  }

  /** Every accepted configuration is encoded so that the chip reads back
      the same data bits, parity and stop bits. */
  lemma LineConfigRoundTrip(dataBits: int, parity: Parity, stopBits: StopBits)
    requires LineConfig(dataBits, parity, stopBits).Ok?
    ensures DecodeLineConfig(LineConfig(dataBits, parity, stopBits).value) == (dataBits, parity, stopBits)
  {
  }

  /** Distinct accepted configurations give distinct words. */
  lemma LineConfigInjective(dataBits1: int, parity1: Parity, stopBits1: StopBits,
                            dataBits2: int, parity2: Parity, stopBits2: StopBits)
    requires LineConfig(dataBits1, parity1, stopBits1).Ok?
    requires LineConfig(dataBits2, parity2, stopBits2).Ok?
    requires LineConfig(dataBits1, parity1, stopBits1) == LineConfig(dataBits2, parity2, stopBits2)
    ensures dataBits1 == dataBits2 && parity1 == parity2 && stopBits1 == stopBits2
  {
    LineConfigRoundTrip(dataBits1, parity1, stopBits1);
    LineConfigRoundTrip(dataBits2, parity2, stopBits2);
  }

  /** The parity field is added unshifted in bits 8-10 (None 0x000, Odd
      0x100, Even 0x200, Mark 0x300, Space 0x400) and Two stop bits add
      0x1000, whatever the other two settings. */
  lemma LineConfigFields(dataBits: int, parity: Parity, stopBits: StopBits)
    requires LineConfig(dataBits, parity, stopBits).Ok?
    ensures var w := LineConfig(dataBits, parity, stopBits).value;
      && w - LineConfig(dataBits, Parity.None, stopBits).value == ParityField(parity) * 0x100
      && w - LineConfig(dataBits, parity, StopBits.One).value == (if stopBits == StopBits.Two then 0x1000 else 0)
  {
  }
}
