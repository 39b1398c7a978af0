/**
 * The stored serial settings (`struct __serial_info`) and their validation
 * by `serial_info_init` in uartHandler.c.
 *
 * The setting codes are indices into the lookup tables at the head of
 * uartHandler.c (baud_table, word_len_table, parity_table, stop_bit_table,
 * flow_ctrl_table); the enumeration header that names them is not part of
 * this model, so the codes below follow the order of those tables.
 */
module SerialConfig {
  import opened CTypes

  /** baud_table: the baud rate selected by each baud index. */
  const BAUD_TABLE: seq<nat> :=
    [300, 600, 1200, 1800, 2400, 4800, 9600, 14400, 19200, 28800, 38400, 57600, 115200, 230400]
  const BAUD_115200: nat := 12

  const WORD_LEN7: uint8 := 0
  const WORD_LEN8: uint8 := 1
  const WORD_LEN9: uint8 := 2

  const PARITY_NONE: uint8 := 0
  const PARITY_ODD: uint8 := 1
  const PARITY_EVEN: uint8 := 2

  const STOP_BIT1: uint8 := 0
  const STOP_BIT2: uint8 := 1

  const FLOW_NONE: uint8 := 0
  const FLOW_XON_XOFF: uint8 := 1
  const FLOW_RTS_CTS: uint8 := 2
  const FLOW_RS422: uint8 := 3
  const FLOW_RS485: uint8 := 4

  datatype WordLength = WordLength7b | WordLength8b
  datatype StopBits = StopBits1 | StopBits2
  datatype Parity = ParityNo | ParityOdd | ParityEven
  datatype HardwareFlow = FlowControlNone | FlowControlRtsCts

  /** UART_InitTypeDef as handed to UART_Init (receive and transmit both enabled). */
  datatype UartInit = UartInit(
    baudRate: nat,
    wordLength: WordLength,
    stopBits: StopBits,
    parity: Parity,
    hardwareFlow: HardwareFlow)

  /** A snapshot of the stored settings. */
  datatype Settings = Settings(
    baudRate: uint8,
    dataBits: uint8,
    parity: uint8,
    stopBits: uint8,
    flowControl: uint8)

  /** The stored settings object that `serial_info_init` corrects in place. */
  class SerialInfo {
    var baudRate: uint8
    var dataBits: uint8
    var parity: uint8
    var stopBits: uint8
    var flowControl: uint8

    constructor (s: Settings)
      ensures Snapshot() == s
    {
      baudRate, dataBits, parity, stopBits, flowControl :=
        s.baudRate, s.dataBits, s.parity, s.stopBits, s.flowControl;
    }

    function Snapshot(): Settings
      reads this
    {
      Settings(baudRate, dataBits, parity, stopBits, flowControl)
    }
  }

  predicate ValidDataBits(code: uint8) { code == WORD_LEN7 || code == WORD_LEN8 }
  predicate ValidStopBits(code: uint8) { code == STOP_BIT1 || code == STOP_BIT2 }
  predicate ValidParity(code: uint8) { code == PARITY_NONE || code == PARITY_ODD || code == PARITY_EVEN }

  /** Baud rate: a valid index selects its table entry, any other selects 115200. */
  function BaudRateFor(index: uint8): (rate: nat)
    ensures index < |BAUD_TABLE| ==> rate == BAUD_TABLE[index]
    ensures index >= |BAUD_TABLE| ==> rate == 115200
    ensures rate in BAUD_TABLE
  {
    if index < |BAUD_TABLE| then BAUD_TABLE[index] else BAUD_TABLE[BAUD_115200]
  }

  /** word_len_table, stop_bit_table, parity_table and flow_ctrl_table: what each setting code stands for. */
  const WORD_LEN_TABLE: seq<nat> := [7, 8, 9]
  const STOP_BIT_TABLE: seq<nat> := [1, 2]
  const PARITY_TABLE: seq<string> := ["N", "ODD", "EVEN"]
  const FLOW_CTRL_TABLE: seq<string> := ["NONE", "XON/XOFF", "RTS/CTS", "RS422", "RS485"]

  /** The number of data bits a UART word length runs with. */
  function DataBitCount(w: WordLength): nat
  {
    if w == WordLength7b then 7 else 8
  }

  function StopBitCount(b: StopBits): nat
  {
    if b == StopBits1 then 1 else 2
  }

  function ParityName(p: Parity): string
  {
    match p
    case ParityNo => "N"
    case ParityOdd => "ODD"
    case ParityEven => "EVEN"
  }

  /**
   * Word length: the UART runs with the data bits word_len_table gives the
   * code, except that the table's 9-bit entry runs as 8 bits; an unknown
   * code runs as 8 bits.
   */
  function WordLengthFor(code: uint8): (w: WordLength)
    ensures code < |WORD_LEN_TABLE| && WORD_LEN_TABLE[code] <= 8 ==> DataBitCount(w) == WORD_LEN_TABLE[code]
    ensures code < |WORD_LEN_TABLE| && WORD_LEN_TABLE[code] > 8 ==> DataBitCount(w) == 8
    ensures code >= |WORD_LEN_TABLE| ==> DataBitCount(w) == 8
  {
    if code == WORD_LEN7 then WordLength7b else WordLength8b
  }

  /** Stop bits: the count stop_bit_table gives the code; one for an unknown code. */
  function StopBitsFor(code: uint8): (b: StopBits)
    ensures code < |STOP_BIT_TABLE| ==> StopBitCount(b) == STOP_BIT_TABLE[code]
    ensures code >= |STOP_BIT_TABLE| ==> StopBitCount(b) == 1
  {
    if code == STOP_BIT2 then StopBits2 else StopBits1
  }

  /** Parity: the parity parity_table names for the code; none for an unknown code. */
  function ParityFor(code: uint8): (p: Parity)
    ensures code < |PARITY_TABLE| ==> ParityName(p) == PARITY_TABLE[code]
    ensures code >= |PARITY_TABLE| ==> p == ParityNo
  {
    if code == PARITY_ODD then ParityOdd
    else if code == PARITY_EVEN then ParityEven
    else ParityNo
  }

  /**
   * Hardware flow control: on exactly for the code flow_ctrl_table names
   * RTS/CTS. XON/XOFF, RS422 and RS485 are handled elsewhere or not by the
   * UART, and an unknown code turns it off.
   */
  function HardwareFlowFor(code: uint8): (f: HardwareFlow)
    ensures code < |FLOW_CTRL_TABLE| ==> (f == FlowControlRtsCts <==> FLOW_CTRL_TABLE[code] == "RTS/CTS")
    ensures code >= |FLOW_CTRL_TABLE| ==> f == FlowControlNone
  {
    if code == FLOW_RTS_CTS then FlowControlRtsCts else FlowControlNone
  }

  /** The UART configuration `serial_info_init` derives from the stored settings. */
  function InitFor(s: Settings): UartInit
  {
    UartInit(BaudRateFor(s.baudRate), WordLengthFor(s.dataBits), StopBitsFor(s.stopBits),
             ParityFor(s.parity), HardwareFlowFor(s.flowControl))
  }

  /**
   * The settings as `serial_info_init` leaves them: an invalid data-bits,
   * stop-bits or parity code is replaced by its default; the baud index and
   * the flow-control code are never written.
   */
  function Corrected(s: Settings): (c: Settings)
    ensures ValidDataBits(c.dataBits) && ValidStopBits(c.stopBits) && ValidParity(c.parity)
    ensures c.dataBits == (if ValidDataBits(s.dataBits) then s.dataBits else WORD_LEN8)
    ensures c.stopBits == (if ValidStopBits(s.stopBits) then s.stopBits else STOP_BIT1)
    ensures c.parity == (if ValidParity(s.parity) then s.parity else PARITY_NONE)
    ensures c.baudRate == s.baudRate && c.flowControl == s.flowControl
  {
    s.(dataBits := if ValidDataBits(s.dataBits) then s.dataBits else WORD_LEN8,
       stopBits := if ValidStopBits(s.stopBits) then s.stopBits else STOP_BIT1,
       parity := if ValidParity(s.parity) then s.parity else PARITY_NONE)
  }

  /**
   * serial_info_init: configures the UART from the stored settings and
   * writes the corrected codes back.
   */
  method SerialInfoInit(serial: SerialInfo) returns (init: UartInit)
    modifies serial
    ensures init == InitFor(old(serial.Snapshot()))
    ensures serial.Snapshot() == Corrected(old(serial.Snapshot()))
  {
    var baud: nat;
    var validArg := false;
    if serial.baudRate < |BAUD_TABLE| {
      baud := BAUD_TABLE[serial.baudRate];
      validArg := true;
    }
    if !validArg {
      baud := BAUD_TABLE[BAUD_115200];
    }

    var wordLength: WordLength;
    if serial.dataBits == WORD_LEN7 {
      wordLength := WordLength7b;
    } else if serial.dataBits == WORD_LEN8 {
      wordLength := WordLength8b;
    } else {
      wordLength := WordLength8b;
      serial.dataBits := WORD_LEN8;
    }

    var stopBits: StopBits;
    if serial.stopBits == STOP_BIT1 {
      stopBits := StopBits1;
    } else if serial.stopBits == STOP_BIT2 {
      stopBits := StopBits2;
    } else {
      stopBits := StopBits1;
      serial.stopBits := STOP_BIT1;
    }

    var parity: Parity;
    if serial.parity == PARITY_NONE {
      parity := ParityNo;
    } else if serial.parity == PARITY_ODD {
      parity := ParityOdd;
    } else if serial.parity == PARITY_EVEN {
      parity := ParityEven;
    } else {
      parity := ParityNo;
      serial.parity := PARITY_NONE;
    }

    var flow := if serial.flowControl == FLOW_RTS_CTS then FlowControlRtsCts else FlowControlNone;
    init := UartInit(baud, wordLength, stopBits, parity, flow);
  }

  /**
   * Loading is self-healing: the corrected settings configure the UART
   * exactly as the original ones did, and correcting them again changes
   * nothing, so a second load writes nothing back.
   */
  lemma CorrectionIsStable(s: Settings)
    ensures InitFor(Corrected(s)) == InitFor(s)
    ensures Corrected(Corrected(s)) == Corrected(s)
  {
  }

  /** An out-of-range baud index selects 115200 without being rewritten. */
  lemma BaudFallbackNotWrittenBack(s: Settings)
    requires s.baudRate >= |BAUD_TABLE|
    ensures InitFor(s).baudRate == 115200
    ensures Corrected(s).baudRate == s.baudRate
    ensures InitFor(Corrected(s)).baudRate == 115200
  {
  }

  /** A stored word_len9 code (a 9-bit entry of word_len_table) is run as 8 bits and rewritten to word_len8. */
  lemma NineBitWordIsRewritten(s: Settings)
    requires s.dataBits == WORD_LEN9
    ensures WORD_LEN_TABLE[s.dataBits] == 9 && DataBitCount(InitFor(s).wordLength) == 8
    ensures InitFor(s).wordLength == WordLength8b
    ensures Corrected(s).dataBits == WORD_LEN8
  {
  }
}
