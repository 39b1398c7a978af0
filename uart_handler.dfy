/**
 * The UART receive path of uartHandler.c: the receive-interrupt step of
 * `S2E_UART_IRQ_Handler`, the consumer operations `uart_getc`,
 * `uart_getc_nonblk`, `uart_gets` and `uart_rx_flush` over the ring
 * buffer `data_rx`, the transmit loop `uart_puts` with `uart_putc`, and
 * `check_uart_flow_control`.
 *
 * The file-level statics of uartHandler.c (the ring buffer, the sticky
 * `flag_ringbuf_full` and `xonoff_status`) are the fields of one `UartRx`
 * object. Hardware accesses (reading the receive register, clearing
 * pending bits, sending a byte) and the restart of the framing timer are
 * recorded in the ghost event log `log`.
 */
module UartHandler {
  import opened CTypes
  import opened RingBuf
  import opened SerialConfig
  import opened FlowControl

  /** The `uartNum` argument: SEG_DATA_UART, SEG_DEBUG_UART, or any other number. */
  datatype Port = DataUart | DebugUart | OtherUart

  datatype UartEvent =
    | RxByteRead(b: bv8)        // UartGetc: the receive register is drained
    | TriggerChecked(b: bv8)    // check_modeswitch_trigger is consulted
    | StoreChecked(b: bv8)      // check_serial_store_permitted is consulted
    | TimerRestarted            // init_time_delimiter_timer
    | RxPendingCleared          // UART_ClearITPendingBit(..., UART_IT_FLAG_RXI)
    | TxPendingCleared          // UART_ClearITPendingBit(..., UART_IT_FLAG_TXI)
    | Sent(port: Port, b: bv8)  // UartPutc on the data UART, S_UartPutc on the debug UART

  /** A single-byte get: the byte, RET_NOK, or the uninitialised value the debug-UART branch returns. */
  datatype CharResult = Char(b: bv8) | Nok | Indeterminate

  /** A bulk get: the number of bytes delivered, or RET_NOK. */
  datatype CountResult = Count(n: nat) | CountNok

  /** Whether the receive interrupt stores the byte it drained. */
  predicate Stores(full: bool, b: bv8, isTrigger: bv8 -> bool, permitted: bv8 -> bool)
  {
    !full && !isTrigger(b) && permitted(b)
  }

  /** The gates the RXI branch consults after draining byte `b`. */
  function RxGates(full: bool, b: bv8, isTrigger: bv8 -> bool): seq<UartEvent>
  {
    if full then [] else [TriggerChecked(b)] + (if isTrigger(b) then [] else [StoreChecked(b)])
  }

  /** The hardware and gate events of the RXI branch of the interrupt handler. */
  function RxBranchEvents(full: bool, b: bv8, isTrigger: bv8 -> bool): seq<UartEvent>
  {
    [RxByteRead(b)] + RxGates(full, b, isTrigger) + [TimerRestarted, RxPendingCleared]
  }

  /**
   * The order the RXI branch keeps, whichever way it goes: exactly one read
   * of the receive register, first; the gates only when the buffer is not
   * full, the store gate only for a byte that is not a trigger; and the
   * framing-timer restart and then the clearing of the pending bit last.
   */
  lemma RxBranchOrder(full: bool, b: bv8, isTrigger: bv8 -> bool)
    ensures var e := RxBranchEvents(full, b, isTrigger);
            && |e| >= 3 && e[0] == RxByteRead(b)
            && e[|e| - 2] == TimerRestarted && e[|e| - 1] == RxPendingCleared
            && (forall i :: 0 < i < |e| ==> !e[i].RxByteRead?)
            && (forall i :: 0 <= i < |e| - 2 ==> !e[i].TimerRestarted? && !e[i].RxPendingCleared?)
            && (TriggerChecked(b) in e <==> !full)
            && (StoreChecked(b) in e <==> !full && !isTrigger(b))
  {
  }

  /** All events of one call of the interrupt handler. */
  function IsrEvents(rxPending: bool, txPending: bool, full: bool, b: bv8, isTrigger: bv8 -> bool): seq<UartEvent>
  {
    (if rxPending then RxBranchEvents(full, b, isTrigger) else [])
    + (if txPending then [TxPendingCleared] else [])
  }

  /** The events of sending `bytes` one by one on `port`; nothing for an unknown port. */
  function Transmitted(port: Port, bytes: seq<bv8>): seq<UartEvent>
  {
    if port == OtherUart then [] else seq(|bytes|, i requires 0 <= i < |bytes| => Sent(port, bytes[i]))
  }

  /** The bytes a log shows were sent on `port`, in order. */
  function SentOn(port: Port, e: seq<UartEvent>): seq<bv8>
    decreases |e|
  {
    if e == [] then []
    else (if e[0].Sent? && e[0].port == port then [e[0].b] else []) + SentOn(port, e[1..])
  }

  /**
   * What a peer on a known port receives from a transmission is exactly the
   * bytes sent, in order, and nothing reaches the other port; an unknown
   * port logs nothing.
   */
  lemma TransmittedRoundTrip(port: Port, other: Port, bytes: seq<bv8>)
    requires other != port
    ensures port == OtherUart ==> Transmitted(port, bytes) == []
    ensures port != OtherUart ==> SentOn(port, Transmitted(port, bytes)) == bytes
    ensures SentOn(other, Transmitted(port, bytes)) == []
  {
    if port != OtherUart {
      SentOnOwnPort(port, bytes);
      SentOnOtherPort(port, other, bytes);
    }
  }

  /** The peer on the sending port receives the bytes in order. */
  lemma {:induction false} SentOnOwnPort(port: Port, bytes: seq<bv8>)
    requires port != OtherUart
    ensures SentOn(port, Transmitted(port, bytes)) == bytes
    decreases |bytes|
  {
    if bytes != [] {
      var t := Transmitted(port, bytes);
      assert t[0] == Sent(port, bytes[0]);
      assert t[1..] == Transmitted(port, bytes[1..]);
      SentOnOwnPort(port, bytes[1..]);
      assert SentOn(port, t) == [bytes[0]] + SentOn(port, t[1..]);
    }
  }

  /** No byte sent on `port` reaches another port. */
  lemma {:induction false} SentOnOtherPort(port: Port, other: Port, bytes: seq<bv8>)
    requires port != OtherUart && other != port
    ensures SentOn(other, Transmitted(port, bytes)) == []
    decreases |bytes|
  {
    if bytes != [] {
      var t := Transmitted(port, bytes);
      assert t[0] == Sent(port, bytes[0]);
      assert t[1..] == Transmitted(port, bytes[1..]);
      SentOnOtherPort(port, other, bytes[1..]);
      assert SentOn(other, t) == SentOn(other, t[1..]);
    }
  }

  /** Sending a text in two parts logs what sending it at once would. */
  lemma TransmittedAppend(port: Port, a: seq<bv8>, b: seq<bv8>)
    ensures Transmitted(port, a + b) == Transmitted(port, a) + Transmitted(port, b)
  {
  }

  /**
   * How many bytes `uart_puts` sends: the leading non-NUL bytes of `s`,
   * at most `req` of them. The loop reads `*buf` before it tests the
   * count, so `s` must hold a NUL or more than `req` bytes.
   */
  function TextLength(s: seq<bv8>, req: nat): (n: nat)
    requires req < |s| || 0 in s
    ensures n <= req && n < |s|
    ensures forall i :: 0 <= i < n ==> s[i] != 0
    ensures n < req ==> s[n] == 0
    decreases |s|
  {
    if s[0] == 0 || req == 0 then 0
    else
      assert 0 in s ==> 0 in s[1..];
      1 + TextLength(s[1..], req - 1)
  }

  class UartRx {
    /** SEG_DATA_BUF_SIZE, the capacity of `data_rx` */
    const N: nat
    const data: array<bv8>
    /** UART_XON_THRESHOLD and UART_XOFF_THRESHOLD */
    const xonThreshold: nat
    const xoffThreshold: nat

    var rd: nat
    var wr: nat
    var used: nat
    /** flag_ringbuf_full */
    var ringFull: bool
    /** xonoff_status */
    var flow: FlowState
    ghost var log: seq<UartEvent>

    ghost predicate Valid()
      reads this
    {
      && data.Length == N && 0 < N
      && rd < N && used <= N && wr == Advance(rd, used, N)
      && xonThreshold < xoffThreshold
    }

    /** The unread bytes, oldest first. */
    ghost function Contents(): seq<bv8>
      reads this, data
      requires Valid()
    {
      RingBuf.Contents(data[..], rd, used)
    }

    constructor (n: nat, xonTh: nat, xoffTh: nat)
      requires 0 < n && xonTh < xoffTh
      ensures Valid() && fresh(data)
      ensures N == n && xonThreshold == xonTh && xoffThreshold == xoffTh
      ensures rd == 0 && wr == 0 && Contents() == []
      ensures flow == XOn && !ringFull && log == []
    {
      N := n;
      data := new bv8[n];
      xonThreshold, xoffThreshold := xonTh, xoffTh;
      rd, wr, used := 0, 0, 0;
      ringFull := false;
      flow := XOn;
      log := [];
    }

    /**
     * S2E_UART_IRQ_Handler. `rxPending`/`txPending` are the RXI/TXI
     * interrupt status, `rxByte` the byte in the receive register, and
     * `isTrigger`/`permitted` the gates of the mode-switch detector.
     */
    method RxInterrupt(rxPending: bool, txPending: bool, rxByte: bv8,
                       isTrigger: bv8 -> bool, permitted: bv8 -> bool)
      requires Valid()
      modifies this`wr, this`used, this`ringFull, this`log, data
      ensures Valid()
      ensures log == old(log) + IsrEvents(rxPending, txPending, old(used) == N, rxByte, isTrigger)
      ensures ringFull == (old(ringFull) || (rxPending && old(used) == N))
      ensures if rxPending && Stores(old(used) == N, rxByte, isTrigger, permitted) then
                && Contents() == old(Contents()) + [rxByte]
                && used == old(used) + 1 && wr == Advance(old(wr), 1, N)
                && data[..] == old(data[..])[old(wr) := rxByte]
              else
                && Contents() == old(Contents())
                && used == old(used) && wr == old(wr) && data[..] == old(data[..])
    {
      ghost var log0 := log;
      ghost var rx: seq<UartEvent> := [];
      if rxPending {
        ReceiveByte(rxByte, isTrigger, permitted);
        rx := RxBranchEvents(old(used) == N, rxByte, isTrigger);
      }
      ghost var tx: seq<UartEvent> := [];
      if txPending {
        tx := [TxPendingCleared];
        log := log + tx;
      }
      assert log == log0 + rx + tx;
      assert log0 + rx + tx == log0 + (rx + tx);
    }

    /**
     * The RXI branch of S2E_UART_IRQ_Handler. A full buffer drops the byte
     * and sets the sticky flag; otherwise the byte is stored at the write
     * cursor unless it is a trigger or storing is not permitted. The read
     * cursor is never touched.
     */
    method ReceiveByte(rxByte: bv8, isTrigger: bv8 -> bool, permitted: bv8 -> bool)
      requires Valid()
      modifies this`wr, this`used, this`ringFull, this`log, data
      ensures Valid()
      ensures log == old(log) + RxBranchEvents(old(used) == N, rxByte, isTrigger)
      ensures ringFull == (old(ringFull) || old(used) == N)
      ensures if Stores(old(used) == N, rxByte, isTrigger, permitted) then
                && Contents() == old(Contents()) + [rxByte]
                && used == old(used) + 1 && wr == Advance(old(wr), 1, N)
                && data[..] == old(data[..])[old(wr) := rxByte]
              else
                && Contents() == old(Contents())
                && used == old(used) && wr == old(wr) && data[..] == old(data[..])
    {
      if used == N {
        log := log + [RxByteRead(rxByte)];
        ringFull := true;
      } else {
        var ch := rxByte;
        log := log + [RxByteRead(ch), TriggerChecked(ch)];
        if !isTrigger(ch) {
          log := log + [StoreChecked(ch)];
          if permitted(ch) {
            Push(ch);
          }
        }
      }
      assert log == old(log) + [RxByteRead(rxByte)] + RxGates(old(used) == N, rxByte, isTrigger);
      log := log + [TimerRestarted, RxPendingCleared];
    }

    /** BUFFER_IN(data_rx) = b; BUFFER_IN_MOVE(data_rx, 1): store at the write cursor and move it on. */
    method Push(b: bv8)
      requires Valid() && used < N
      modifies this`wr, this`used, data
      ensures Valid()
      ensures Contents() == old(Contents()) + [b]
      ensures used == old(used) + 1 && wr == Advance(old(wr), 1, N)
      ensures data[..] == old(data[..])[old(wr) := b]
    {
      PushAppends(data[..], rd, used, b);
      data[wr] := b;
      wr := Advance(wr, 1, N);
      used := used + 1;
    }

    /**
     * uart_getc. On the data UART it spins until the buffer is not empty
     * and then pops the oldest byte; the model starts from the end of the
     * spin. The debug-UART branch returns an uninitialised value.
     */
    method Getc(port: Port) returns (r: CharResult)
      requires Valid()
      requires port == DataUart ==> used > 0
      modifies this`rd, this`used
      ensures Valid()
      ensures port == DataUart ==>
                && r == Char(old(Contents())[0])
                && Contents() == old(Contents())[1..]
                && rd == Advance(old(rd), 1, N) && used == old(used) - 1
      ensures port == DebugUart ==> r == Indeterminate && rd == old(rd) && used == old(used)
      ensures port == OtherUart ==> r == Nok && rd == old(rd) && used == old(used)
    {
      if port == DataUart {
        r := PopOldest();
      } else if port == DebugUart {
        r := Indeterminate;
      } else {
        r := Nok;
      }
    }

    /** uart_getc_nonblk: RET_NOK on an empty buffer, otherwise pops the oldest byte. */
    method GetcNonblocking(port: Port) returns (r: CharResult)
      requires Valid()
      modifies this`rd, this`used
      ensures Valid()
      ensures port == DataUart && old(used) == 0 ==> r == Nok && rd == old(rd) && used == old(used)
      ensures port == DataUart && old(used) > 0 ==>
                && r == Char(old(Contents())[0])
                && Contents() == old(Contents())[1..]
                && rd == Advance(old(rd), 1, N) && used == old(used) - 1
      ensures port == DebugUart ==> r == Indeterminate && rd == old(rd) && used == old(used)
      ensures port == OtherUart ==> r == Nok && rd == old(rd) && used == old(used)
    {
      if port == DataUart {
        if used == 0 {
          return Nok;
        }
        r := PopOldest();
      } else if port == DebugUart {
        r := Indeterminate;
      } else {
        r := Nok;
      }
    }

    /** BUFFER_OUT then BUFFER_OUT_MOVE(1). */
    method PopOldest() returns (r: CharResult)
      requires Valid() && used > 0
      modifies this`rd, this`used
      ensures Valid()
      ensures r == Char(old(Contents())[0])
      ensures Contents() == old(Contents())[1..]
      ensures rd == Advance(old(rd), 1, N) && used == old(used) - 1
    {
      r := Char(data[rd]);
      PopDrops(data[..], rd, used, 1);
      rd := Advance(rd, 1, N);
      used := used - 1;
    }

    /** memcpy(buf + dstOff, &data[srcOff], len) */
    method CopyOut(buf: array<bv8>, dstOff: nat, srcOff: nat, len: nat)
      requires buf != data
      requires dstOff + len <= buf.Length && srcOff + len <= data.Length
      modifies buf
      ensures Some(buf[..]) == RunCopy(old(buf[..]), data[..], MemCopy(dstOff, srcOff, len))
    {
      forall i | 0 <= i < len {
        buf[dstOff + i] := data[srcOff + i];
      }
      if len > 0 {
        ghost var want := old(buf[..])[..dstOff] + data[..][srcOff..srcOff + len] + old(buf[..])[dstOff + len..];
        forall j | 0 <= j < buf.Length
          ensures buf[..][j] == want[j]
        {
          if dstOff <= j < dstOff + len {
            assert want[j] == data[srcOff + (j - dstOff)];
          }
        }
        assert buf[..] == want;
      } else {
        assert buf[..] == old(buf[..]);
      }
    }

    /**
     * uart_gets, with the evidently intended destination of the second
     * copy: min(used, req) bytes are removed and delivered to buf[0..] in
     * push order, the part up to the physical end of the storage first and
     * the remainder from its start. The debug UART delivers nothing; an
     * unknown port returns RET_NOK.
     */
    method Gets(port: Port, buf: array<bv8>, req: uint16) returns (r: CountResult)
      requires Valid() && buf != data
      requires port == DataUart ==> Min(used, req) <= buf.Length
      modifies this`rd, this`used, buf
      ensures Valid()
      ensures port == DataUart ==>
                var k := Min(old(used), req);
                && r == Count(k)
                && Some(buf[..]) == RunCopies(old(buf[..]), data[..], GetsCopies(N, old(rd), old(used), req))
                && buf[..k] == old(Contents())[..k]
                && buf[k..] == old(buf[k..])
                && Contents() == old(Contents())[k..]
                && rd == Advance(old(rd), k, N) && used == old(used) - k
      ensures port == DebugUart ==> r == Count(0) && buf[..] == old(buf[..]) && rd == old(rd) && used == old(used)
      ensures port == OtherUart ==> r == CountNok && buf[..] == old(buf[..]) && rd == old(rd) && used == old(used)
    {
      if port == DataUart {
        ghost var ring, rd0, used0, buf0 := data[..], rd, used, buf[..];
        var total := MoveOut(buf, req);
        GetsDeliversInOrder(ring, rd0, used0, req, buf0);
        PopDrops(ring, rd0, used0, total);
        r := Count(total);
      } else if port == DebugUart {
        r := Count(0);
      } else {
        r := CountNok;
      }
    }

    /** The data-UART branch of uart_gets: the copies, then the cursor moves. */
    method MoveOut(buf: array<bv8>, req: uint16) returns (total: nat)
      requires Valid() && buf != data
      requires Min(used, req) <= buf.Length
      modifies this`rd, this`used, buf
      ensures Valid()
      ensures total == Min(old(used), req)
      ensures Some(buf[..]) == RunCopies(old(buf[..]), data[..], GetsCopies(N, old(rd), old(used), req))
      ensures rd == Advance(old(rd), total, N) && used == old(used) - total
    {
      ghost var ring, rd0, buf0 := data[..], rd, buf[..];
      total := Min(used, req);
      var remaining := total;
      GetsCopiesCases(N, rd, used, req);
      if Separated(N, rd, used) && N - rd < remaining {
        var len1st := N - rd;
        CopyOut(buf, 0, rd, len1st);
        ghost var mid := buf[..];
        rd := Advance(rd, len1st, N);
        used := used - len1st;
        remaining := remaining - len1st;
        CopyOut(buf, len1st, rd, remaining);
        RunTwoCopies(buf0, ring, MemCopy(0, rd0, len1st), MemCopy(len1st, rd, remaining), mid, buf[..]);
      } else {
        CopyOut(buf, 0, rd, remaining);
        RunOneCopy(buf0, ring, MemCopy(0, rd0, remaining), buf[..]);
      }
      rd := Advance(rd, remaining, N);
      used := used - remaining;
    }

    /** uart_rx_flush: BUFFER_CLEAR on the data UART discards the unread bytes. */
    method Flush(port: Port)
      requires Valid()
      modifies this`rd, this`wr, this`used
      ensures Valid()
      ensures port == DataUart ==> Contents() == [] && rd == 0 && wr == 0
      ensures port != DataUart ==> rd == old(rd) && wr == old(wr) && used == old(used)
    {
      if port == DataUart {
        rd, wr, used := 0, 0, 0;
      }
    }

    /** uart_putc: the byte goes to the data or the debug UART; an unknown port sends nothing. */
    method Putc(port: Port, b: bv8)
      modifies this`log
      ensures log == old(log) + Transmitted(port, [b])
    {
      if port == DataUart {
        log := log + [Sent(DataUart, b)];
      } else if port == DebugUart {
        log := log + [Sent(DebugUart, b)];
      }
    }

    /**
     * uart_puts: sends the bytes of `s` up to its first NUL, at most `req`
     * of them, and returns how many were sent; an unknown port returns 0
     * and sends nothing.
     */
    method Puts(port: Port, s: seq<bv8>, req: uint16) returns (n: nat)
      requires req < |s| || 0 in s
      modifies this`log
      ensures port == OtherUart ==> n == 0 && log == old(log)
      ensures port != OtherUart ==> n == TextLength(s, req) && log == old(log) + Transmitted(port, s[..n])
    {
      var lentot := 0;
      while s[lentot] != 0 && lentot < req
        invariant lentot <= TextLength(s, req)
        invariant port == OtherUart ==> lentot == 0 && log == old(log)
        invariant port != OtherUart ==> log == old(log) + Transmitted(port, s[..lentot])
        decreases req - lentot
      {
        if port == DataUart {
          Putc(port, s[lentot]);
        } else if port == DebugUart {
          log := log + [Sent(DebugUart, s[lentot])];
        } else {
          return 0;
        }
        assert s[..lentot + 1] == s[..lentot] + [s[lentot]];
        TransmittedAppend(port, s[..lentot], [s[lentot]]);
        lentot := lentot + 1;
      }
      n := lentot;
    }

    /**
     * check_uart_flow_control: the XON/XOFF step at the current occupancy,
     * sending the control byte on the data UART.
     */
    method CheckFlowControl(flowCtrl: uint8)
      requires Valid()
      modifies this`flow, this`log
      ensures Valid()
      ensures flow == FlowStep(flowCtrl, old(flow), used, xonThreshold, xoffThreshold).state
      ensures log == old(log) + Transmitted(DataUart, FlowStep(flowCtrl, old(flow), used, xonThreshold, xoffThreshold).sent)
    {
      if flowCtrl == FLOW_XON_XOFF {
        if flow == XOn && used > xoffThreshold {
          log := log + [Sent(DataUart, XOFF)];
          flow := XOff;
        } else if flow == XOff && used < xonThreshold {
          log := log + [Sent(DataUart, XON)];
          flow := XOn;
        }
      }
    }
  }
}
