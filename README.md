# Verified model of the W7500x serial-to-Ethernet UART and storage handlers

This project models two platform handlers of the W7500x serial-to-Ethernet
firmware and proves properties of the model.

- **uartHandler.c**: the receive path of the data UART.
  - The ring buffer `data_rx` (module `RingBuf`, class `UartHandler.UartRx`).
  - The receive-interrupt step of `S2E_UART_IRQ_Handler`.
  - The consumer operations `uart_getc`, `uart_getc_nonblk`, `uart_gets` and `uart_rx_flush`.
  - The transmit operations `uart_putc` and `uart_puts`.
  - The XON/XOFF hysteresis of `check_uart_flow_control` (module `FlowControl`).
  - The validation and defaulting of stored serial settings in `serial_info_init` (module `SerialConfig`).
- **storageHandler.c** (module `StorageHandler`):
  - the region routing of `read_storage` and `write_storage`, including erase-before-write on the flash build;
  - the block-and-sector erase plan of `erase_storage`.

## How the model is built

The ring buffer is an `array<bv8>` of capacity `N`, with a read cursor, a
write cursor and an explicit count `used` of unread bytes. The buffer
macros come from a header that is not part of this model; `RingBuf.Contents`
gives the unread bytes oldest first.

Hardware accesses are recorded in a ghost event log of `UartRx`: reading the
receive register, clearing a pending bit, sending a byte, and restarting the
framing timer. The mode-switch trigger detector and the store-permission gate
are function parameters (`isTrigger`, `permitted`). The capacity
`SEG_DATA_BUF_SIZE` and the thresholds `UART_XON_THRESHOLD < UART_XOFF_THRESHOLD`
are constructor parameters. `UART_XON` and `UART_XOFF` are the ASCII DC1 (0x11) and DC3 (0x13) characters.

The setting codes (`word_len7`, `parity_none`, `flow_xon_xoff`, ...) are
numbered in the order of the lookup tables at uartHandler.c:43-50, because
the enumeration header is not part of this model.

The storage backend is the constant `backend`, which stands for the `USE_EXT_EEPROM` build choice. The
device profile (region addresses, `DEVICE_APP_SIZE`, `BLOCK_SIZE`,
`SECT_SIZE`) is the constant `layout`. Each backend driver call is
recorded in a ghost trace and acts on an abstract pair of byte maps (flash
and EEPROM). An address missing from a map reads as the erased value 0xFF. A flash write can only clear bits, so it stores the AND of the old and the new byte; an erase removes its span from the map. An EEPROM write replaces its bytes.

The C integer widths of `erase_storage` are written out:
- `blocks` is `uint8_t`, so the block count is truncated modulo 256.
- `remainder` is `uint16_t`, so it is truncated modulo 65536.
- Addresses are `uint32_t`, so address sums are taken modulo 2^32.

The layout lemmas state their results under `AppFits`, which says that none of these truncations happens.

There are two deliberate departures from the code:
- **Unknown storage region.** `read_storage` and `write_storage` return an uninitialised `ret_len` for a selector outside the four regions (storageHandler.c:18,45-49 and 55,84-88). The model returns the explicit error `InvalidRegion` and issues no backend call.
- **Second copy of `uart_gets`.** It is modelled with its evidently intended destination. The code as written is modelled beside it (see Findings).

## Model

| member | source | states |
|---|---|---|
| UartHandler.UartRx.constructor | Firmware_Projects_uVision5/Projects/S2E_App/src/PlatformHandler/uartHandler.c:27-56 | The start state: Valid() holds, the ring buffer is empty with both cursors at 0, the full flag flag_ringbuf_full is cleared, the XON/XOFF status is XON and the event log is empty. |
| UartHandler.UartRx.RxInterrupt | Firmware_Projects_uVision5/Projects/S2E_App/src/PlatformHandler/uartHandler.c:66-101 | One interrupt call appends the RXI-branch events (when RXI is pending) and then the TXI clear (when TXI is pending) to the log. The sticky full flag is set exactly when RXI is pending on a full buffer. The byte is appended to the contents, with the write cursor moved on by one, exactly when RXI is pending, the buffer is not full, the byte is not a trigger and storing is permitted. Otherwise contents, cursors and storage are unchanged. |
| UartHandler.UartRx.ReceiveByte | Firmware_Projects_uVision5/Projects/S2E_App/src/PlatformHandler/uartHandler.c:68-95 | The RXI branch: one register read; a full buffer drops the byte and sets the flag, leaving the buffer unchanged; otherwise the trigger gate, then (for a non-trigger) the store gate, and a store only when both pass; then the timer restart and the pending-bit clear. |
| UartHandler.UartRx.Push | Firmware_Projects_uVision5/Projects/S2E_App/src/PlatformHandler/uartHandler.c:87-88 | BUFFER_IN then BUFFER_IN_MOVE(1) on a non-full buffer appends the byte to the contents, grows `used` by one, moves the write cursor on by one and changes only the cell at the old write cursor. |
| UartHandler.RxBranchOrder | Firmware_Projects_uVision5/Projects/S2E_App/src/PlatformHandler/uartHandler.c:68-95 | In every branch the RXI events start with exactly one register read and end with the timer restart followed by the pending-bit clear. The trigger gate is consulted iff the buffer is not full. The store gate is consulted iff the buffer is not full and the byte is not a trigger. |
| RingBuf.PushAppends | Firmware_Projects_uVision5/Projects/S2E_App/src/PlatformHandler/uartHandler.c:87-88 | Storing at the write cursor and counting one more unread byte appends exactly that byte to the contents. |
| RingBuf.PopDrops | Firmware_Projects_uVision5/Projects/S2E_App/src/PlatformHandler/uartHandler.c:301-302 | Moving the read cursor on by k drops exactly the k oldest bytes and keeps the order of the rest. |
| RingBuf.PopsCompose | Firmware_Projects_uVision5/Projects/S2E_App/src/PlatformHandler/uartHandler.c:343-347 | The two read-cursor moves of the bulk read equal one move by their sum, and drop that many oldest bytes. |
| RingBuf.Contents | Firmware_Projects_uVision5/Projects/S2E_App/src/PlatformHandler/uartHandler.c:30 | The unread bytes: `used` of them, the i-th at the read cursor advanced by i modulo the capacity. |
| RingBuf.Advance | Firmware_Projects_uVision5/Projects/S2E_App/src/PlatformHandler/uartHandler.c:88 | A cursor moved on by at most the capacity stays below the capacity. |
| UartHandler.UartRx.Getc | Firmware_Projects_uVision5/Projects/S2E_App/src/PlatformHandler/uartHandler.c:294-312 | On the data UART (once the spin has ended with a non-empty buffer) it returns the oldest byte, drops it from the contents and moves the read cursor by one. The debug UART returns an indeterminate value with no state change. Any other port returns RET_NOK with no state change. |
| UartHandler.UartRx.GetcNonblocking | Firmware_Projects_uVision5/Projects/S2E_App/src/PlatformHandler/uartHandler.c:314-332 | On the data UART an empty buffer gives RET_NOK with no state change; otherwise the oldest byte is returned and removed. Debug UART: indeterminate, no change. Other ports: RET_NOK, no change. |
| UartHandler.UartRx.PopOldest | Firmware_Projects_uVision5/Projects/S2E_App/src/PlatformHandler/uartHandler.c:301-302 | BUFFER_OUT then BUFFER_OUT_MOVE(1): returns the oldest byte and leaves the remaining contents in order. |
| UartHandler.UartRx.Gets | Firmware_Projects_uVision5/Projects/S2E_App/src/PlatformHandler/uartHandler.c:334-357 | On the data UART it returns k = min(used, reqSize), delivers the k oldest bytes in push order to buf[0..k], leaves the rest of buf unchanged, and removes exactly those k bytes from the contents. The debug UART delivers 0 bytes and any other port returns RET_NOK, both with no change to the buffer or to buf. |
| UartHandler.UartRx.MoveOut | Firmware_Projects_uVision5/Projects/S2E_App/src/PlatformHandler/uartHandler.c:340-347 | The copies are the intended copy plan: the segment up to the physical end first when the request wraps, then the rest from the start. The read cursor then moves on by min(used, reqSize). |
| UartHandler.UartRx.CopyOut | Firmware_Projects_uVision5/Projects/S2E_App/src/PlatformHandler/uartHandler.c:342-346 | One memcpy from the ring storage into buf has exactly the effect RunCopy describes. |
| RingBuf.GetsCopies | Firmware_Projects_uVision5/Projects/S2E_App/src/PlatformHandler/uartHandler.c:340-347 | The intended copy plan copies min(used, reqSize) bytes in total and never reads past the end of the storage. |
| RingBuf.GetsCopiesCases | Firmware_Projects_uVision5/Projects/S2E_App/src/PlatformHandler/uartHandler.c:341-346 | The intended plan is two copies (rd..N to buf[0..], then from storage index 0 to just after them) when the request wraps, and otherwise one copy to buf[0..]. |
| RingBuf.GetsDeliversInOrder | Firmware_Projects_uVision5/Projects/S2E_App/src/PlatformHandler/uartHandler.c:340-347 | Running the intended plan on any large enough buffer succeeds. It puts the min(used, reqSize) oldest bytes in push order at buf[0..], across the wrap point, and leaves everything after them unchanged. |
| RingBuf.GetsDeliversWrapped | Firmware_Projects_uVision5/Projects/S2E_App/src/PlatformHandler/uartHandler.c:341-346 | The same, in the two-copy case where the request reaches past the physical end. |
| RingBuf.GetsDeliversStraight | Firmware_Projects_uVision5/Projects/S2E_App/src/PlatformHandler/uartHandler.c:346 | The same, in the one-copy case. |
| RingBuf.RunCopy | Firmware_Projects_uVision5/Projects/S2E_App/src/PlatformHandler/uartHandler.c:342-346 | A memcpy succeeds iff it is empty or stays inside both buffers, and it keeps the destination length. |
| RingBuf.RunOneCopy | Firmware_Projects_uVision5/Projects/S2E_App/src/PlatformHandler/uartHandler.c:346 | A plan of one copy has that copy's effect. |
| RingBuf.RunTwoCopies | Firmware_Projects_uVision5/Projects/S2E_App/src/PlatformHandler/uartHandler.c:342-346 | A plan of two copies has their effects in order. |
| RingBuf.GetsCopiesAsWritten | Firmware_Projects_uVision5/Projects/S2E_App/src/PlatformHandler/uartHandler.c:340-347 | The copies as the code writes them also total min(used, reqSize) bytes and stay inside the storage. The difference is only where they land. |
| RingBuf.GetsAsWrittenDiffersOnlyThere | Firmware_Projects_uVision5/Projects/S2E_App/src/PlatformHandler/uartHandler.c:341-346 | The as-written plan has the same effect as the intended one on every input except one case: the buffer is wrapped, something is requested, and the first segment covers the request. There the single copy lands at buf + (N - rd), and N - rd is non-zero. |
| RingBuf.GetsAsWrittenMisplacesOldestByte | Firmware_Projects_uVision5/Projects/S2E_App/src/PlatformHandler/uartHandler.c:341-346 | With capacity 4, read cursor 2, three unread bytes and one byte requested, the code writes the oldest byte to buf[2]. A one-byte buf is overrun. The intended plan writes the byte to buf[0]. |
| UartHandler.UartRx.Flush | Firmware_Projects_uVision5/Projects/S2E_App/src/PlatformHandler/uartHandler.c:359-365 | On the data UART all unread bytes are discarded and both cursors reset; on other ports nothing changes. |
| UartHandler.UartRx.Putc | Firmware_Projects_uVision5/Projects/S2E_App/src/PlatformHandler/uartHandler.c:257-268 | The byte is sent on the data or the debug UART; an unknown port sends nothing. |
| UartHandler.UartRx.Puts | Firmware_Projects_uVision5/Projects/S2E_App/src/PlatformHandler/uartHandler.c:270-292 | The bytes of the text up to its first NUL, at most reqSize of them, are sent in order, and their number is returned. An unknown port sends nothing and returns 0. |
| UartHandler.TextLength | Firmware_Projects_uVision5/Projects/S2E_App/src/PlatformHandler/uartHandler.c:274-289 | The count sent is at most reqSize, covers only non-NUL bytes, and stops short of reqSize only at a NUL. |
| UartHandler.Transmitted | Firmware_Projects_uVision5/Projects/S2E_App/src/PlatformHandler/uartHandler.c:257-268 | Defines the log of sending bytes one by one on a port: one send event per byte, none on an unknown port. |
| UartHandler.SentOn | Firmware_Projects_uVision5/Projects/S2E_App/src/PlatformHandler/uartHandler.c:257-268 | Defines what a peer on a port receives: the bytes of the send events for that port, in log order. |
| UartHandler.TransmittedRoundTrip | Firmware_Projects_uVision5/Projects/S2E_App/src/PlatformHandler/uartHandler.c:257-268 | A peer on a known port receives exactly the bytes sent, in order, and nothing reaches any other port. An unknown port logs nothing. |
| UartHandler.SentOnOwnPort | Firmware_Projects_uVision5/Projects/S2E_App/src/PlatformHandler/uartHandler.c:257-268 | On a known port, the peer there receives exactly the bytes sent, in order. |
| UartHandler.SentOnOtherPort | Firmware_Projects_uVision5/Projects/S2E_App/src/PlatformHandler/uartHandler.c:257-268 | Nothing sent on a known port is received on any other port. |
| UartHandler.TransmittedAppend | Firmware_Projects_uVision5/Projects/S2E_App/src/PlatformHandler/uartHandler.c:274-289 | Sending a text in two parts logs exactly what sending it at once would. This is the step of the uart_puts loop. |
| UartHandler.UartRx.CheckFlowControl | Firmware_Projects_uVision5/Projects/S2E_App/src/PlatformHandler/uartHandler.c:230-255 | The status becomes the one FlowStep computes at the current occupancy, and exactly the control bytes FlowStep sends are logged on the data UART. |
| FlowControl.FlowStep | Firmware_Projects_uVision5/Projects/S2E_App/src/PlatformHandler/uartHandler.c:230-250 | Nothing happens unless the mode is XON/XOFF. XOFF is sent iff the status is XON and the occupancy is above the XOFF threshold. XON is sent iff the status is XOFF and the occupancy is below the XON threshold. At most one byte is sent, and the status flips exactly when a byte is sent. |
| FlowControl.SettledRunIsSilent | Firmware_Projects_uVision5/Projects/S2E_App/src/PlatformHandler/uartHandler.c:234-245 | Once a call at some occupancy sends nothing, any number of further calls at that occupancy send nothing and keep the status. |
| FlowControl.SteadyOccupancySendsAtMostOnce | Firmware_Projects_uVision5/Projects/S2E_App/src/PlatformHandler/uartHandler.c:234-245 | Any number of calls at an unchanged occupancy send at most one control byte in total. |
| FlowControl.RunAlternates | Firmware_Projects_uVision5/Projects/S2E_App/src/PlatformHandler/uartHandler.c:230-250 | Over any sequence of occupancies the bytes sent are XON or XOFF and strictly alternate. The first is the byte that leaves the initial status and the last is the one that entered the final status. With nothing sent the status is unchanged. So an XOFF is sent only on a rise above the XOFF threshold after an XON (or from the initial XON status), and an XON only on a fall below the XON threshold after an XOFF. |
| FlowControl.HysteresisExample | Firmware_Projects_uVision5/Projects/S2E_App/src/PlatformHandler/uartHandler.c:234-245 | A 64-byte buffer with thresholds 16 and 48, filled past 48 and drained below 16, sends exactly XOFF then XON. |
| FlowControl.RepeatedRiseExample | Firmware_Projects_uVision5/Projects/S2E_App/src/PlatformHandler/uartHandler.c:234-245 | With the same thresholds, two rises past 48 with a fall only to 30 between them send a single XOFF. |
| SerialConfig.SerialInfoInit | Firmware_Projects_uVision5/Projects/S2E_App/src/PlatformHandler/uartHandler.c:139-228 | The UART is configured by InitFor of the stored settings, and the stored settings become Corrected of themselves. |
| SerialConfig.BaudRateFor | Firmware_Projects_uVision5/Projects/S2E_App/src/PlatformHandler/uartHandler.c:144-152 | An index inside baud_table selects its entry; any other index selects 115200. |
| SerialConfig.WordLengthFor | Firmware_Projects_uVision5/Projects/S2E_App/src/PlatformHandler/uartHandler.c:47-166 | The UART runs with the number of data bits word_len_table gives the code. The table's 9-bit entry runs as 8 bits, and an unknown code runs as 8 bits. |
| SerialConfig.StopBitsFor | Firmware_Projects_uVision5/Projects/S2E_App/src/PlatformHandler/uartHandler.c:49-180 | The UART runs with the number of stop bits stop_bit_table gives the code; an unknown code gives one stop bit. |
| SerialConfig.ParityFor | Firmware_Projects_uVision5/Projects/S2E_App/src/PlatformHandler/uartHandler.c:48-197 | The UART runs with the parity parity_table names for the code; an unknown code gives no parity. |
| SerialConfig.HardwareFlowFor | Firmware_Projects_uVision5/Projects/S2E_App/src/PlatformHandler/uartHandler.c:50-219 | Hardware flow control is on exactly for the code flow_ctrl_table names "RTS/CTS". XON/XOFF, RS422, RS485 and unknown codes leave it off. |
| SerialConfig.Corrected | Firmware_Projects_uVision5/Projects/S2E_App/src/PlatformHandler/uartHandler.c:155-197 | After correction the data-bits, stop-bits and parity codes are valid. Each is kept when valid and otherwise replaced by word_len8, stop_bit1 or parity_none. The baud index and the flow code are never written. |
| SerialConfig.CorrectionIsStable | Firmware_Projects_uVision5/Projects/S2E_App/src/PlatformHandler/uartHandler.c:139-219 | The corrected settings configure the UART exactly as the stored ones did, and correcting twice is correcting once. |
| SerialConfig.BaudFallbackNotWrittenBack | Firmware_Projects_uVision5/Projects/S2E_App/src/PlatformHandler/uartHandler.c:145-152 | An out-of-range baud index runs at 115200 and stays stored as it was, so every later load falls back again. |
| SerialConfig.NineBitWordIsRewritten | Firmware_Projects_uVision5/Projects/S2E_App/src/PlatformHandler/uartHandler.c:47-166 | The stored word_len9 code, whose word_len_table entry is 9, runs as 8 bits and is rewritten to word_len8. |
| StorageHandler.Storage.ReadStorage | Firmware_Projects_uVision5/Projects/S2E_App/src/PlatformHandler/storageHandler.c:16-50 | The calls issued are ReadCalls and the media are unchanged. A known region returns the count the backend reports, 6 for MAC whatever size is asked and size otherwise, with exactly that many bytes fetched by the single read. An unknown region returns InvalidRegion. |
| StorageHandler.ReadRouting | Firmware_Projects_uVision5/Projects/S2E_App/src/PlatformHandler/storageHandler.c:20-47 | A MAC read returns 6 and the 6 bytes at DEVICE_MAC_ADDR whatever size is asked. A CONFIG read returns size and the size bytes at DEVICE_CONFIG_ADDR, both on the configured backend. An application region reads size bytes of flash at the caller's address. Exactly the unknown region makes no call, and it reports InvalidRegion. Reads change no medium. |
| StorageHandler.Storage.WriteStorage | Firmware_Projects_uVision5/Projects/S2E_App/src/PlatformHandler/storageHandler.c:53-89 | The calls issued are WriteCalls and the media become their effect. The result is the byte count the backend reports, or InvalidRegion for an unknown region. |
| StorageHandler.EraseBeforeWrite | Firmware_Projects_uVision5/Projects/S2E_App/src/PlatformHandler/storageHandler.c:57-86 | On flash a MAC or CONFIG write is one sector erase of the fixed address immediately followed by the write there. On the EEPROM it is the write alone. An application write is one flash write at the caller's address. Only an unknown region makes no call, and no erase occurs anywhere else. |
| StorageHandler.FixedRegionsIgnoreAddress | Firmware_Projects_uVision5/Projects/S2E_App/src/PlatformHandler/storageHandler.c:22-75 | For MAC and CONFIG, reads and writes issue the same calls whatever address the caller passes. |
| StorageHandler.WriteThenReadReturnsData | Firmware_Projects_uVision5/Projects/S2E_App/src/PlatformHandler/storageHandler.c:16-89 | After a write of data to a known region, a read of that region of the written length returns the written length and the data unchanged, on either backend. The read is at the same address for the application regions. On flash, MAC and CONFIG need only that the data fit in the sector the write erases first. An application region needs the target bytes erased beforehand, because its write issues no erase. |
| StorageHandler.EraseThenWriteReadsBack | Firmware_Projects_uVision5/Projects/S2E_App/src/PlatformHandler/storageHandler.c:77-169 | After erase_storage of an application region, a write anywhere inside the region reads back intact, with the written length as the count. |
| StorageHandler.Storage.EraseStorage | Firmware_Projects_uVision5/Projects/S2E_App/src/PlatformHandler/storageHandler.c:91-170 | The calls issued are EraseCalls of the region and the media become their effect. |
| StorageHandler.Storage.EraseAppRegion | Firmware_Projects_uVision5/Projects/S2E_App/src/PlatformHandler/storageHandler.c:128-169 | For an application region the calls are the BlockRun of Blocks erases from the base, then the SectorRun of Sectors erases from the advanced working address. |
| StorageHandler.Storage.EraseBlocks | Firmware_Projects_uVision5/Projects/S2E_App/src/PlatformHandler/storageHandler.c:144-150 | The block loop issues the n block erases at 32-bit start + BLOCK_SIZE*i, in order of i. |
| StorageHandler.Storage.EraseSectors | Firmware_Projects_uVision5/Projects/S2E_App/src/PlatformHandler/storageHandler.c:155-165 | The sector loop issues the n sector erases at 32-bit start + SECT_SIZE*i, in order of i. |
| StorageHandler.Storage.Issue | Firmware_Projects_uVision5/Projects/S2E_App/src/PlatformHandler/storageHandler.c:24-26 | One backend call is traced, applied to the media, and returns the requested count and the fetched bytes. |
| StorageHandler.EraseCounts | Firmware_Projects_uVision5/Projects/S2E_App/src/PlatformHandler/storageHandler.c:130-137 | Without truncation the block count is DEVICE_APP_SIZE / BLOCK_SIZE. The sector count is the least number of sectors whose span reaches the remainder DEVICE_APP_SIZE mod BLOCK_SIZE, which is ceiling division and 0 exactly when the remainder is 0. |
| StorageHandler.Div | Firmware_Projects_uVision5/Projects/S2E_App/src/PlatformHandler/storageHandler.c:130-135 | Div is the floor quotient: c*q <= s < c*q + c. |
| StorageHandler.Rem | Firmware_Projects_uVision5/Projects/S2E_App/src/PlatformHandler/storageHandler.c:134 | The remainder is below the divisor. |
| StorageHandler.DivIsQuotient | Firmware_Projects_uVision5/Projects/S2E_App/src/PlatformHandler/storageHandler.c:130-135 | Div and Rem agree with C's unsigned `/` and `%`. |
| StorageHandler.QuotientUnique | Firmware_Projects_uVision5/Projects/S2E_App/src/PlatformHandler/storageHandler.c:130 | The floor quotient is unique. |
| StorageHandler.CeilDiv | Firmware_Projects_uVision5/Projects/S2E_App/src/PlatformHandler/storageHandler.c:135-136 | Rounding the quotient up when a remainder is left gives the least multiple of the sector size at or above the remainder. |
| StorageHandler.Truncate | Firmware_Projects_uVision5/Projects/S2E_App/src/PlatformHandler/storageHandler.c:96-97 | Storing into an unsigned variable of m values keeps a value below m. |
| StorageHandler.TruncateIsRem | Firmware_Projects_uVision5/Projects/S2E_App/src/PlatformHandler/storageHandler.c:96-97 | That truncation is the remainder modulo m. |
| StorageHandler.Wrap32Small | Firmware_Projects_uVision5/Projects/S2E_App/src/PlatformHandler/storageHandler.c:94 | A 32-bit address sum that does not overflow is unchanged. |
| StorageHandler.BlockRunAt | Firmware_Projects_uVision5/Projects/S2E_App/src/PlatformHandler/storageHandler.c:144-150 | The i-th block erase is at the 32-bit sum start + BLOCK_SIZE*i. |
| StorageHandler.SectorRunAt | Firmware_Projects_uVision5/Projects/S2E_App/src/PlatformHandler/storageHandler.c:157-163 | The j-th sector erase is at the 32-bit sum start + SECT_SIZE*j. |
| StorageHandler.EraseRunsAt | Firmware_Projects_uVision5/Projects/S2E_App/src/PlatformHandler/storageHandler.c:144-165 | The plan holds k block erases, then m sector erases at the 32-bit working address advanced by k*BLOCK_SIZE, plus SECT_SIZE*j. |
| StorageHandler.NoWrap | Firmware_Projects_uVision5/Projects/S2E_App/src/PlatformHandler/storageHandler.c:144-165 | When the end of the span stays below 2^32, every address in the plan is the plain sum. |
| StorageHandler.RunsAreErases | Firmware_Projects_uVision5/Projects/S2E_App/src/PlatformHandler/storageHandler.c:144-165 | Every call of an application erase plan is an erase. |
| StorageHandler.AppErasePlanShape | Firmware_Projects_uVision5/Projects/S2E_App/src/PlatformHandler/storageHandler.c:130-165 | For an application region that fits, the calls are Div(DEVICE_APP_SIZE, BLOCK_SIZE) block erases at base + BLOCK_SIZE*i in increasing i. They are followed by the Sectors sector erases at base + blocks*BLOCK_SIZE + SECT_SIZE*j. |
| StorageHandler.Contiguous | Firmware_Projects_uVision5/Projects/S2E_App/src/PlatformHandler/storageHandler.c:144-165 | Each erase starts exactly where the previous one ends, and the first starts at the base. |
| StorageHandler.ErasesWithin | Firmware_Projects_uVision5/Projects/S2E_App/src/PlatformHandler/storageHandler.c:144-165 | The plan clears no address outside [base, base + blocks*BLOCK_SIZE + sectors*SECT_SIZE). |
| StorageHandler.ErasesReach | Firmware_Projects_uVision5/Projects/S2E_App/src/PlatformHandler/storageHandler.c:144-165 | The plan clears every address in that span. |
| StorageHandler.ShapedCovers | Firmware_Projects_uVision5/Projects/S2E_App/src/PlatformHandler/storageHandler.c:144-165 | A plan of that shape clears exactly that span. |
| StorageHandler.AppEraseCovers | Firmware_Projects_uVision5/Projects/S2E_App/src/PlatformHandler/storageHandler.c:130-165 | The erased span starts at the region base, is contiguous, and covers exactly [base, base + len). Here DEVICE_APP_SIZE <= len < DEVICE_APP_SIZE + SECT_SIZE, and a non-empty region gets at least one call. |
| StorageHandler.ErasedAppRegionReadsBlank | Firmware_Projects_uVision5/Projects/S2E_App/src/PlatformHandler/storageHandler.c:128-169 | After erase_storage of an application region, every address of its DEVICE_APP_SIZE bytes is erased and reads as 0xFF, whatever the flash held before. |
| StorageHandler.ErasedStaysErased | Firmware_Projects_uVision5/Projects/S2E_App/src/PlatformHandler/storageHandler.c:144-165 | A byte cleared by an erase call stays clear under later erase calls. |
| StorageHandler.FixedEraseIsOneCall | Firmware_Projects_uVision5/Projects/S2E_App/src/PlatformHandler/storageHandler.c:101-115 | Erasing MAC or CONFIG is exactly one call at the region's fixed address: a sector erase on flash, an EEPROM erase otherwise. |
| StorageHandler.ApplyAllConcat | Firmware_Projects_uVision5/Projects/S2E_App/src/PlatformHandler/storageHandler.c:144-165 | Performing the block erases and then the sector erases has the effect of performing the whole plan. |
| StorageHandler.ApplyAllAppend | Firmware_Projects_uVision5/Projects/S2E_App/src/PlatformHandler/storageHandler.c:146-159 | Performing one more call after a sequence applies it to the state the sequence left. |
| StorageHandler.ReadBytes | Firmware_Projects_uVision5/Projects/S2E_App/src/PlatformHandler/storageHandler.c:24-43 | Defines a backend read: len bytes from the address, an erased byte reading as 0xFF. |
| StorageHandler.ReadAfterWrite | Firmware_Projects_uVision5/Projects/S2E_App/src/PlatformHandler/storageHandler.c:64-73 | Reading back an EEPROM write gives the data, whatever the EEPROM held before. |
| StorageHandler.ReadAfterProgram | Firmware_Projects_uVision5/Projects/S2E_App/src/PlatformHandler/storageHandler.c:62-82 | Reading back a flash write over erased bytes gives the data. |
| StorageHandler.ProgramBytes | Firmware_Projects_uVision5/Projects/S2E_App/src/PlatformHandler/storageHandler.c:62-82 | A flash write leaves each target byte as the AND of what it held and the byte written, and leaves every other address as it was. |
| StorageHandler.ProgrammingNeedsErase | Firmware_Projects_uVision5/Projects/S2E_App/src/PlatformHandler/storageHandler.c:68-75 | The erase before write is needed. When the first CONFIG byte holds 0x00, a flash write of 0x5A without an erase reads back 0x00. The erase-then-write that write_storage issues reads back 0x5A. |
| StorageHandler.WriteBytes | Firmware_Projects_uVision5/Projects/S2E_App/src/PlatformHandler/storageHandler.c:62-82 | A write stores each byte at its address and leaves every other address as it was. |
| StorageHandler.Blank | Firmware_Projects_uVision5/Projects/S2E_App/src/PlatformHandler/storageHandler.c:103-159 | Defines an erase: the span becomes erased and every other address is kept. |
| StorageHandler.ReadAfterBlank | Firmware_Projects_uVision5/Projects/S2E_App/src/PlatformHandler/storageHandler.c:103-159 | Reading an erased span gives 0xFF throughout, whatever it held before. |
| UartHandler.Stores | Firmware_Projects_uVision5/Projects/S2E_App/src/PlatformHandler/uartHandler.c:83-89 | Defines when the receive interrupt stores the byte it drained: the buffer is not full, the byte is not a trigger, and storing is permitted. |
| UartHandler.RxGates | Firmware_Projects_uVision5/Projects/S2E_App/src/PlatformHandler/uartHandler.c:70-90 | Defines the gates the RXI branch consults: none on a full buffer, otherwise the trigger check and, for a non-trigger byte, the store check. |
| UartHandler.RxBranchEvents | Firmware_Projects_uVision5/Projects/S2E_App/src/PlatformHandler/uartHandler.c:68-95 | Defines the events of the RXI branch: the register read, the gates, the timer restart, the pending-bit clear. |
| UartHandler.IsrEvents | Firmware_Projects_uVision5/Projects/S2E_App/src/PlatformHandler/uartHandler.c:66-101 | Defines the events of one interrupt call: the RXI branch when RXI is pending, then the TXI clear when TXI is pending. |
| UartHandler.UartRx.Valid | Firmware_Projects_uVision5/Projects/S2E_App/src/PlatformHandler/uartHandler.c:30 | Defines the buffer invariant: storage of capacity N, both cursors below N, the write cursor the read cursor advanced by the used count, at most N bytes unread. |
| RingBuf.Separated | Firmware_Projects_uVision5/Projects/S2E_App/src/PlatformHandler/uartHandler.c:341 | Defines IS_BUFFER_OUT_SEPARATED as the unread bytes running past the physical end of the storage (rd + used > N). |
| RingBuf.Min | Firmware_Projects_uVision5/Projects/S2E_App/src/PlatformHandler/uartHandler.c:340 | The MIN of the bulk read: at most each argument and equal to one of them. |
| RingBuf.RunCopies | Firmware_Projects_uVision5/Projects/S2E_App/src/PlatformHandler/uartHandler.c:341-347 | Defines the effect of a sequence of memcpy calls; a successful run keeps the destination length. |
| SerialConfig.InitFor | Firmware_Projects_uVision5/Projects/S2E_App/src/PlatformHandler/uartHandler.c:139-219 | Defines the UART configuration serial_info_init builds from the stored settings, field by field. |
| FlowControl.FlowRun | Firmware_Projects_uVision5/Projects/S2E_App/src/PlatformHandler/uartHandler.c:230-255 | Defines successive calls of check_uart_flow_control at a sequence of occupancies. |
| StorageHandler.Blocks | Firmware_Projects_uVision5/Projects/S2E_App/src/PlatformHandler/storageHandler.c:130 | Defines the uint8_t block count DEVICE_APP_SIZE / BLOCK_SIZE, truncated modulo 256. |
| StorageHandler.Sectors | Firmware_Projects_uVision5/Projects/S2E_App/src/PlatformHandler/storageHandler.c:132-137 | Defines the uint16_t sector count: 0 when the blocks cover the region, else the uint16_t remainder divided by SECT_SIZE, rounded up. |
| StorageHandler.BlockRun | Firmware_Projects_uVision5/Projects/S2E_App/src/PlatformHandler/storageHandler.c:144-150 | Defines the block loop's erases at 32-bit working_address + BLOCK_SIZE*i. |
| StorageHandler.SectorRun | Firmware_Projects_uVision5/Projects/S2E_App/src/PlatformHandler/storageHandler.c:155-165 | Defines the sector loop's erases at 32-bit working_address + SECT_SIZE*i. |
| StorageHandler.EraseRuns | Firmware_Projects_uVision5/Projects/S2E_App/src/PlatformHandler/storageHandler.c:139-165 | Defines the block run from the base, then the sector run from the working address advanced past the blocks. |
| StorageHandler.AppEraseCalls | Firmware_Projects_uVision5/Projects/S2E_App/src/PlatformHandler/storageHandler.c:128-169 | Defines the erase calls for an application region at a base. |
| StorageHandler.EraseCalls | Firmware_Projects_uVision5/Projects/S2E_App/src/PlatformHandler/storageHandler.c:99-169 | Defines the calls of erase_storage per region and backend; none for an unknown region. |
| StorageHandler.ReadCalls | Firmware_Projects_uVision5/Projects/S2E_App/src/PlatformHandler/storageHandler.c:20-47 | Defines the calls of read_storage per region and backend; none for an unknown region. |
| StorageHandler.WriteCalls | Firmware_Projects_uVision5/Projects/S2E_App/src/PlatformHandler/storageHandler.c:57-86 | Defines the calls of write_storage per region and backend, with the erase first for MAC and CONFIG on flash. |
| StorageHandler.ReadOutcome | Firmware_Projects_uVision5/Projects/S2E_App/src/PlatformHandler/storageHandler.c:16-50 | Defines what read_storage returns: the count its read reports with the bytes it fetches, or InvalidRegion when it made no call. |
| StorageHandler.Apply | Firmware_Projects_uVision5/Projects/S2E_App/src/PlatformHandler/storageHandler.c:24-159 | Defines the effect of one backend call: reads change nothing, flash writes program, EEPROM writes overwrite, flash erases blank their span. |
| StorageHandler.ApplyAll | Firmware_Projects_uVision5/Projects/S2E_App/src/PlatformHandler/storageHandler.c:57-165 | Defines the effect of a sequence of backend calls, in order. |
| StorageHandler.Wrap32 | Firmware_Projects_uVision5/Projects/S2E_App/src/PlatformHandler/storageHandler.c:94-164 | Defines a uint32_t address computation: the sum modulo 2^32. |
| StorageHandler.AppFits | Firmware_Projects_uVision5/Projects/S2E_App/src/PlatformHandler/storageHandler.c:96-164 | Defines the layouts in which nothing is truncated: the block count fits uint8_t, the remainder fits uint16_t, and the region does not wrap round 2^32. |

## Left out

- main.c and W7500x_board.h: board bring-up, network services and pin constants are not part of this model.
- The concurrency between the interrupt handler and the main loop on `data_rx` is not modelled. The interrupt step and the consumer operations are separate sequential methods on one object.
- Hardware registers are not modelled. `UartGetc`, `UART_ClearITPendingBit`, `UartPutc`, `S_UartPutc` and the framing-timer restart become events in a ghost log. `UART_Init` and the NVIC setup of `S2E_UART_Configuration` are left out; `serial_info_init` returns the configuration record it would hand to `UART_Init`.
- The `_SEG_DEBUG_` echo and the `_UART_DEBUG_` and `_STORAGE_DEBUG_` prints are output only and are left out.
- The ring-buffer macro header, the setting-code enumeration and the XON/XOFF header are not part of this model. Their meaning is reconstructed from their use in uartHandler.c.
- UartHandler.UartRx.Getc: the busy-wait `while(IS_BUFFER_EMPTY(data_rx))` ends only when an interrupt fills the buffer, so the model starts after the spin with the requirement that the buffer is not empty.
- UartHandler.UartRx.Puts: `uart_puts` reads `*buf` before testing the count, so the text must hold a NUL or more than reqSize bytes. This is required of the caller rather than modelled as undefined behaviour.
- The backend drivers (`read_flash`, `write_flash`, `erase_flash_block`, `erase_flash_sector` and the EEPROM functions) are not part of this model. They act on an abstract byte map. A flash write programs: each target byte becomes the AND of what it held and the byte written, so only an erased byte takes the written value. An EEPROM write overwrites. A write or a read returns the requested count. `erase_eeprom` is traced but does not change the EEPROM map, because its effect is not visible here.
- StorageHandler.AppErasePlanShape: stated only when the block count fits `uint8_t`, the remainder fits `uint16_t` and the region does not wrap round 2^32 (`AppFits`). Outside these bounds the model still issues the truncated and wrapped calls the code issues, but no layout property is proved.
- StorageHandler.AppEraseCovers: stated under `AppFits` for the same reason.
- StorageHandler.ErasedAppRegionReadsBlank: stated under `AppFits` for the same reason.
- StorageHandler.EraseCounts: stated under `AppFits` for the same reason.
- StorageHandler.WriteThenReadReturnsData: on flash, the round trip for MAC and CONFIG is stated only when the data fits the one sector `write_storage` erases first, and for the application regions only when the target bytes are already erased, because `write_storage` issues no erase there and programming cannot set a cleared bit. EraseThenWriteReadsBack discharges that requirement after `erase_storage`.
- UartHandler.UartRx.Putc: does not return `uart_putc`'s constant `RET_OK` (uartHandler.c:267), because the value of `RET_OK` is defined in a header that is not part of this model.
- RingBuf.Separated: `IS_BUFFER_OUT_SEPARATED` comes from the macro header that is not part of this model. It is read as "the unread bytes run past the physical end of the storage", that is rd + used > N.
- StorageHandler.Div: written as repeated subtraction so that the erase proofs avoid nonlinear division; DivIsQuotient ties it to `/` and `%`.

## Findings

| source | as written | input that shows it | evidently intended | confidence | as-written member | corrected member |
|---|---|---|---|---|---|---|
| Firmware_Projects_uVision5/Projects/S2E_App/src/PlatformHandler/uartHandler.c:341-346 | `len1st = BUFFER_OUT_1ST_SIZE(data_rx)` is assigned inside the `&&` condition even when `len1st < reqSize` fails. The second memcpy then writes to `buf + len1st` instead of `buf`. | Capacity 4, read cursor 2, three unread bytes (wrapped), reqSize 1: the oldest byte is copied to buf[2]. A one-byte buf is overrun, and buf[0] never gets the byte. This reads `IS_BUFFER_OUT_SEPARATED` as rd + used > N. Under a reading of rd > wr instead, the same input shows it, and so does data ending exactly at the physical end. Under that reading a full buffer with rd > 0 has wr == rd and is not separated, so a request for more than N - rd bytes is copied by the single memcpy from the read cursor past the end of the storage. | The bytes go to buf[0..min(used, reqSize)] in push order. | not executed | RingBuf.GetsCopiesAsWritten, RingBuf.GetsAsWrittenMisplacesOldestByte | UartHandler.UartRx.Gets, RingBuf.GetsDeliversInOrder |
