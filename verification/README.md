# Verification of the USB engine and the debugWIRE programmer

Two components of the repository are modelled here and proved against what they are for.

**The USB device engine** (`usbtiny/usbdrv`, built into the firmware for a 16.5 MHz clock).

* *Bit codec.* The transmit and receive loops are register programs over 8 bit words; one element of a level sequence
  is one bit time. `Line` defines the wire format (sections 7.1.8 and 7.1.9 of USB 2.0): NRZI over stuffed bits.
  `Transmitter` proves that the shift-history stuffer of the 16.5 MHz driver and the countdown stuffer of the 12 MHz
  driver both emit exactly that. `Reception` defines what a run-counting receiver makes of a line, `Receiver165` and
  `Receiver20` prove the two receive loops against it for every line whatsoever, and `RoundTrip` joins the two ends.
* *CRC16* (section 8.3.5 of USB 2.0). `Crc16` defines the shift register, proves that it is polynomial long division,
  and proves the complemented bit loop against it; `Crc16Fast` does the same for the parity form, `Crc16Table` for the
  split-phase table form of the 18 MHz receiver, with an exact statement of what its check accepts.
* *Protocol.* `UsbDevice.Device` is the shared state of the interrupt routine and the main loop. The interrupt routine
  is atomic and receives through the receive loop above; the main loop calls `Interrupts()`, any number of packets with
  any contents, between any two of its assignments to shared state. Ghost logs record the lines and their answers, and
  what was stored, processed, built and sent. `UsbProtocol` has the packets, answers and transfers that the contracts
  speak of, and `ControlTransfer` defines control-in transfers (section 8.5.3 of USB 2.0) independently of the code.
  `Bus` says what becomes of the packets of section 8.4 in terms of addresses, endpoint numbers and payloads, and
  `Requests` what the host gets for its requests, both without the functions that the code is specified by.
  `InterruptEndpoint` builds packets on the bus, bit by bit, that win the race described below.

**The debugWIRE programmer** (`src/dwire`, `src/commands/NonVolatile.c`).

* `DwTarget` is the device at the other end as an interpreter of the command bytes: registers, data space, NOR flash
  (programming only clears bits), page buffer, EEPROM, SPMCSR, and the read-while-write section, which cannot be read
  while it is busy: on parts with a boot section all flash is treated as such a section. Anything the protocol notes do
  not promise to work sets a `fault` flag that never goes away.
* `DwPort`, `DataMemory`, `NonVolatile` and `Eeprom` are the host routines, which do nothing but send bytes to that
  interpreter and receive what it sends back. `FlashPages` holds what programming and erasing can do and how little of it
  is enough; `FlashWrite` says what `WriteFlash` amounts to; `Parts` is the table of devices.
* `BaudSearch` is the search for the baud rate, for any port. `BaudPulses` works out what a receiver at one rate makes of
  the byte 0x55 sent at another, and `BaudDescent` where that leads the search: which devices it finds, and how exactly.
  `Transport` has the send buffers.

A contract written with a function of the old state (`Receive165`, `PacketLevels`, `WriteAll`, ...) is tied to that
function; what the function means is then the subject of lemmas (`RoundTrip165`, `NoSevenOnes`, `ExactOverlayIff`, ...).

## What the proofs found

* The 16.5 MHz receiver does not count the last 1 of the sync byte (`usbdrvasm165.inc:109`), the transmitters do. A packet
  whose first byte starts with five 1 bits is therefore received wrongly unless all its later bits are 0; this is exact
  (`RoundTrip.RoundTrip165`). No well-formed packet identifier has that form, so the bus never shows it.
* The early return of `WriteFlashPage` after an erasure (`NonVolatile.c:192-194`) leaves the read-while-write section of
  parts with a boot section unreadable. If `WriteFlash` then reads back part of a page, bytes of that page outside the
  range are lost: `FlashWrite.LossExample` is such a case. `FlashWrite.AlwaysExactIff` has the exact condition in terms of
  the old flash and the bytes to be written: nothing can be lost if and only if the flash is readable at the start
  wherever part of the first page is read, and, on a part with a boot section, a range that ends inside a page does not
  change the page before that to all ones. `FlashWrite.ExactOverlayIff` says the same for given unreadable values.
* `DwWriteAddr` leaves the repeating mode when it passes r28 to r31 or DWDR. It then asks the device for something
  undocumented if and only if an ordinary cell follows in the range, or the byte for EECR has strobe bits other than
  none, a read strobe, or the first half of a timed write (`DataMemory.DwWriteAddr`).
* The coarse search for the baud rate ends, on any port, if and only if it does not stick at rate 0
  (`BaudSearch.CoarseEndsIff`). It does stick when a rate that it visits is refused, unless rate 0 works or makes the
  command fail (`BaudSearch.RefusedRateSticks`); `BaudSearch.StickingExample` is a port with working rates on which it
  never ends. Where the working rates are an interval that no step of the search jumps over, they are reached if and
  only if every rate above them that the search visits can be set and is answered (`BaudSearch.ReachedIff`). The test
  for 0 behind the loop (`Serial.c:348`) cannot be reached with 0. From a working rate below 50 the fine search never
  ends, because a step of 2% is lost in rounding; from 50 on it does end, if the working rates do
  (`BaudSearch.FineEndsIff`).
* The scales for a byte that is all 0 behind its leading ones (`Serial.c:263-271`) go up with the width of the pulse,
  so that a device much slower than the trial rate is taken to be almost right: 0x80 leads to 95%, 0xf8 to 20%
  (`BaudDescent.ZeroStartExample`; which widths are concerned is exact in `BaudDescent.ZeroStartOrder`). For a device
  whose 0x55 is sampled one and a half bit times behind the edge of the start bit and once a bit time from then on,
  the next rate is below that of the device exactly when the trial rate is 4.25 to 4.5 times that of the device, and
  then it is 85% to 90% of it (`BaudPulses.EnoughAlways`). Such a device is found if and only if the search never
  visits such a rate (`BaudDescent.SampledReachedIff`). From the first rate, devices of 17648 to 21176 and of 33334 to
  35294 baud are never found (`BaudDescent.MissedFromStart`); those of 35295 to 158823 baud always are
  (`BaudDescent.FastIsFound`). A rate found is that of the device, within 1% and 2% (`BaudDescent.FindSampledRate`).
* `SerialSend` leaves 0 to 255 bytes in its buffer, not 0 to 127 as its comment says (`Serial.c:155-157`): the remainder
  of everything buffered and sent by 256 (`Transport.OutBuffer.SerialSend`, `Transport.LongRemainder`).
* The tokens on the interrupt endpoint need not alternate. A packet that leaves between the test and the assignment of
  `usbGenericSetInterrupt` (`usbdrv.c:230-234`) is followed by one with the same token. Resets of the toggle aside, they
  alternate for all arrivals if every call of `usbSetInterrupt` finds the last packet gone, or a received packet waiting
  (`UsbDevice.Device.TokensAlternate`); every other call can be made to repeat a token
  (`InterruptEndpoint.RepeatsToken`), and `InterruptEndpoint.RaceRun` is such a run. No packet is ever torn. The test
  `usbInterruptIsReady` before each call is enough for whole runs (`UsbDevice.Device.RunGuarded`).
* Data that `usbFunctionRead` supplies are limited to the low byte of wLength (`usbdrv.c:457`). A request for 255 bytes, or
  any whose low byte is 255, is taken for "no message", and no packet is ever sent for it
  (`UsbDevice.Device.SuppliedTransfer`). `usbdrv.h:158-162` promises no more than 254 bytes.

## Model

| member | source | states |
|---|---|---|
| Line.SendBit | usbtiny/usbdrv/usbdrvasm165.inc:402-407 | a bit below the stuffing limit costs one bit time: the level is kept for a 1 and toggled for a 0, and everything after it is unchanged |
| Line.SendStuffBit | usbtiny/usbdrv/usbdrvasm165.inc:359-370 | after six 1 bits the line toggles once more, also when no further bit follows |
| Line.StuffBoundsRuns | usbtiny/usbdrv/usbdrvasm165.inc:408-410 | stuffed bits never hold more than six 1 bits in a row, counting those already sent |
| Line.NoSevenOnes | usbtiny/usbdrv/usbdrvasm165.inc:401-424 | among any seven bits in a row of any packet on the wire there is a 0, so the line toggles |
| Transmitter.HistoryStep | usbtiny/usbdrv/usbdrvasm165.inc:407-410 | the shift history x2 counts 1 bits, and is at least 0xfc exactly when six have been sent |
| Transmitter.SendSevenBits | usbtiny/usbdrv/usbdrvasm165.inc:402-413 | bits 0 to 6 with their stuff bits, and no others, are emitted before the counter ends the loop three lower |
| Transmitter.Transmit165 | usbtiny/usbdrv/usbdrvasm165.inc:391-429 | for every buffer, whatever the other pins, x2 and the carry are at the start, 2 to 12 bytes counted with sync become exactly the sync byte and the data, stuffed, NRZI coded, and two SE0 |
| Transmitter.BitStatusRange | usbtiny/usbdrv/usbdrvasm165.inc:400-413 | the `subi 37` counter gives exactly seven loop bits for the first twelve bytes and not for the thirteenth |
| Transmitter.Slot12 | usbtiny/usbdrv/usbdrvasm12.inc:320-337 | one bit slot of the countdown stuffer emits the bit and, after a sixth 1, its stuff bit, the delay with an unwritten port counting as one level |
| Transmitter.SendByte12 | usbtiny/usbdrv/usbdrvasm12.inc:272-281 | three pairs of bits and two more are emitted per byte and cnt goes down by one |
| Transmitter.Transmit12 | usbtiny/usbdrv/usbdrvasm12.inc:308-368 | the countdown stuffer emits the same levels as the shift-history stuffer, for 1 to 85 bytes counted with sync |
| Transmitter.PairCounterRange | usbtiny/usbdrv/usbdrvasm12.inc:334-336 | `subi cnt, 171` makes three pairs and returns cnt - 1 exactly for 1 to 85 |
| Receiver165.StoreRun | usbtiny/usbdrv/usbdrvasm165.inc:280-282 | storing an inverted bit into shift extends the run of 1 bits that shift shows, or ends it |
| Receiver165.MaskKeepsRun | usbtiny/usbdrv/usbdrvasm165.inc:282-330 | each of the position masks leaves the run readable, and leaves zero exactly when six 1 bits have come in a row |
| Receiver165.CompareBit6 | usbtiny/usbdrv/usbdrvasm165.inc:159-160 | the comparison with 2 detects a run of six at bit 6 |
| Receiver165.CompareBit7 | usbtiny/usbdrv/usbdrvasm165.inc:172-173 | the comparison with 4 detects a run of six at bit 7 |
| Receiver165.Flipped | usbtiny/usbdrv/usbdrvasm165.inc:175-177 | flipping the sixth 1 in shift and recording it in x3 ends the run and leaves x3 ^ shift alone |
| Receiver165.ByteDone | usbtiny/usbdrv/usbdrvasm165.inc:270-273 | after eight bits x3 ^ shift is the byte received |
| Receiver165.Receiver.FirstBit0 | usbtiny/usbdrv/usbdrvasm165.inc:104-121 | the first sample is the first bit after sync, against the K of sync, with no 1 bit counted |
| Receiver165.Receiver.Unstuff0 | usbtiny/usbdrv/usbdrvasm165.inc:214-224 | a run that ended with bit 0: SE0 is looked for in the stuff bit, which otherwise becomes the reference for the next sample |
| Receiver165.Receiver.Bit1 | usbtiny/usbdrv/usbdrvasm165.inc:283-295 | bit 1 is the next bit of the specification, or SE0 has been seen in the first sample after bit 0 |
| Receiver165.Receiver.Unstuff1 | usbtiny/usbdrv/usbdrvasm165.inc:228-235 | a run that ended with bit 1: the sample taken is the stuff bit, one more is taken, the run is over and the byte unchanged |
| Receiver165.Receiver.Bit2 | usbtiny/usbdrv/usbdrvasm165.inc:296-307 | bit 2 is the next bit of the specification and cnt goes down, or the buffer is full |
| Receiver165.Receiver.Bit3 | usbtiny/usbdrv/usbdrvasm165.inc:308-317 | bit 3 is the next bit of the specification, whether or not a stuff bit comes first |
| Receiver165.Receiver.Bit4 | usbtiny/usbdrv/usbdrvasm165.inc:318-330 | the same for bit 4, where the stuff bit is sampled before the bit |
| Receiver165.Receiver.Unstuff4 | usbtiny/usbdrv/usbdrvasm165.inc:262-266 | a run that ended with bit 4: going back to the mask finds the flipped bit and does not loop |
| Receiver165.Receiver.Bit5 | usbtiny/usbdrv/usbdrvasm165.inc:140-150 | the same for bit 5 |
| Receiver165.Receiver.Bit6 | usbtiny/usbdrv/usbdrvasm165.inc:151-156 | the same for bit 6; when the stuff bit came just before it, the run test that is skipped would have failed |
| Receiver165.Receiver.Unstuff5 | usbtiny/usbdrv/usbdrvasm165.inc:184-200 | a run that ended with bit 5: the stuff bit is dropped, bit 6 sampled, and the top bit of shift is still clear for the comparison with 2 |
| Receiver165.Receiver.Bit7 | usbtiny/usbdrv/usbdrvasm165.inc:157-167 | the same for bit 7 |
| Receiver165.Receiver.RxLoop | usbtiny/usbdrv/usbdrvasm165.inc:270-279 | the byte made of the eight bits is stored at y, nothing else in the buffer changes, and x3 is fresh |
| Receiver165.Receiver.Bit0 | usbtiny/usbdrv/usbdrvasm165.inc:168-180 | a run of six at bit 7 is unstuffed, the byte is stored, and bit 0 of the next one is the next bit of the specification |
| Receiver165.Receiver.Turn | usbtiny/usbdrv/usbdrvasm165.inc:270-331 | once round the loop stores one byte of the specification or leaves by SE0 or overflow, exactly when the specification does |
| Receiver165.Receiver.Receive | usbtiny/usbdrv/usbdrvasm165.inc:104-331 | on every line, whatever it does, the loop ends with the outcome of the run-counting specification, with those bytes in the half it was given, and without a write anywhere else |
| Receiver20.Marker | usbtiny/usbdrv/usbdrvasm20.inc:110-113 | the preset bit leaves shift exactly with the seventh bit of a byte |
| Receiver20.HandleBit | usbtiny/usbdrv/usbdrvasm20.inc:208-227 | one bit against the reference level, with eager unstuffing |
| Receiver20.SevenBits | usbtiny/usbdrv/usbdrvasm20.inc:204-227 | bits 0 to 6, with the SE0 test on bits 1 to 6 |
| Receiver20.Receive | usbtiny/usbdrv/usbdrvasm20.inc:125-227 | on every line the loop ends with the outcome of its specification and those bytes in the buffer, which is otherwise unchanged |
| RoundTrip.Clean165 | usbtiny/usbdrv/usbdrvasm165.inc:270-331 | a line that carries a whole number of bytes and then SE0 is received as those bytes, including a stuff bit behind the last bit |
| RoundTrip.Clean20 | usbtiny/usbdrv/usbdrvasm20.inc:125-227 | the same for the counter-based receiver |
| RoundTrip.MaskFormRefinesCountForm | usbtiny/usbdrv/usbdrvasm165.inc:140-331 | on every line of whole bytes, stuff bits of either value, whose first five bits are not all 1, the mask-based and the counter-based receiver store the same bytes |
| RoundTrip.TransmissionIsClean | usbtiny/usbdrv/usbdrvasm165.inc:391-429 | what a transmitter sends is, for a receiver that counts the last 1 of sync, a line of whole bytes that decodes to the data |
| RoundTrip.RoundTrip20 | usbtiny/usbdrv/usbdrvasm20.inc:125-227 | every packet of up to 11 bytes is stored unchanged by the counter-based receiver |
| RoundTrip.RoundTripFiveOnes | usbtiny/usbdrv/usbdrvasm165.inc:109-114 | a packet that starts with five 1 bits is stored unchanged by the 16.5 MHz receiver exactly if all its later bits are 0 |
| RoundTrip.RoundTrip165 | usbtiny/usbdrv/usbdrvasm165.inc:104-331 | a packet of 1 to 11 bytes is stored unchanged by the 16.5 MHz receiver if and only if its first byte does not start with five 1 bits, or nothing but 0 bits follow them |
| RoundTrip.RoundTripPid | usbtiny/usbdrv/usbdrvasm165.inc:104-331 | every packet of 1 to 11 bytes with a well-formed packet identifier is stored unchanged by both receivers |
| RoundTrip.PacketLineCarries | usbtiny/usbdrv/usbdrvasm165.inc:391-429 | for every packet there is a line that carries it |
| RoundTrip.FiveOnesExample | usbtiny/usbdrv/usbdrvasm165.inc:109-114 | a line with a packet that the 20 MHz receiver stores and the 16.5 MHz receiver does not |
| Crc16.RemainderIsDivision | usbtiny/usbdrv/usbdrvasm.S:238-254 | the shift register computes the remainder of polynomial long division by the generator, for every message and start value |
| Crc16.BitStep | usbtiny/usbdrv/usbdrvasm.S:246-251 | with the carry set the complemented register pair stays the complement of the remainder |
| Crc16.BitLoop | usbtiny/usbdrv/usbdrvasm.S:246-254 | `subi bitCnt, 224` makes exactly eight steps and returns to 0 |
| Crc16.ByteLoops | usbtiny/usbdrv/usbdrvasm.S:240-257 | `com argLen` and `subi argLen, -1` visit exactly the len bytes of the message |
| Crc16.RemainderByBytes | usbtiny/usbdrv/usbdrvasm.S:243-257 | bit by bit and byte by byte give the same remainder |
| Crc16.UsbCrc16 | usbtiny/usbdrv/usbdrvasm.S:233-259 | the result is the CRC of the message: the remainder from all ones, complemented |
| Crc16.UsbCrc16Append | usbtiny/usbdrv/usbdrvasm.S:265-269 | the two bytes behind the message become its CRC, low byte first; nothing else changes |
| Crc16Fast.EightStepsOfByte | usbtiny/usbdrv/usbdrvasm.S:151-160 | a closed form for eight steps of the shift register |
| Crc16Fast.FastTableIsEightSteps | usbtiny/usbdrv/usbdrvasm.S:151-160 | the parity and shift expression is that closed form, for all 256 bytes |
| Crc16Fast.FastByte | usbtiny/usbdrv/usbdrvasm.S:185-211 | the instruction sequence for one byte is eight steps of the shift register |
| Crc16Fast.UsbCrc16Fast | usbtiny/usbdrv/usbdrvasm.S:178-217 | the fast form has the same result as the slow one, for every message of up to 255 bytes |
| Crc16Table.TablesAreEightSteps | usbtiny/usbdrv/usbdrvasm18-crc.inc:612-706 | every one of the 512 entries is what the generator program in the comment computes |
| Crc16Table.DataByte | usbtiny/usbdrv/usbdrvasm18-crc.inc:507-549 | the slots of bits 5, 6 and 7 together do one byte step of the CRC, with the last byte still pending |
| Crc16Table.StartSettles | usbtiny/usbdrv/usbdrvasm18-crc.inc:218-229 | 0xFE54 settles to 0xffff when the first byte comes in |
| Crc16Table.DataBytes | usbtiny/usbdrv/usbdrvasm18-crc.inc:507-549 | after any payload the registers hold its remainder |
| Crc16Table.Cleanup | usbtiny/usbdrv/usbdrvasm18-crc.inc:99-111 | the check passes exactly if the register has settled to the residue |
| Crc16Table.AcceptedIff | usbtiny/usbdrv/usbdrvasm18-crc.inc:99-111 | the remainder is 0xb001 if and only if there are at least two bytes and the last two are the CRC of the rest |
| Crc16Table.Check | usbtiny/usbdrv/usbdrvasm18-crc.inc:99-111 | the receive loop and its check accept exactly the payloads that `usbCrc16Append` produces |
| ControlTransfer.TransferReassembles | usbtiny/usbdrv/usbdrv.c:521-546 | the payloads of a transfer concatenate to the reply, tokens alternate from DATA1, every packet has its CRC, and exactly the last one is shorter than eight bytes |
| ControlTransfer.TransferUnique | usbtiny/usbdrv/usbdrv.c:521-546 | packets with those properties are the transfer: nothing else would do |
| UsbDevice.Device.HandleData | usbtiny/usbdrv/asmcommon.inc:105-128 | silent without a token, NAK while a packet waits, ACK otherwise; a packet of at least 4 bytes, so one with a payload (`Bus.HearData`), is stored and the halves swapped, a shorter one only acknowledged |
| UsbDevice.Device.HandleIn0 | usbtiny/usbdrv/asmcommon.inc:146-152 | a handshake is repeated; a data packet leaves in one piece, is one that was built, and makes the new address effective |
| UsbDevice.Device.HandleIn1 | usbtiny/usbdrv/asmcommon.inc:163-176 | the same for the interrupt endpoint |
| UsbDevice.Device.Send1 | usbtiny/usbdrv/asmcommon.inc:170-176 | the packet of the interrupt endpoint leaves with the token in its buffer, and keeps the alternation of tokens as far as it can be kept |
| UsbDevice.Device.HandleIn | usbtiny/usbdrv/asmcommon.inc:130-152 | NAK while a received packet waits; otherwise the endpoint's offer is sent, and the invariants hold |
| UsbDevice.Device.HandleToken | usbtiny/usbdrv/asmcommon.inc:67-97 | a token for another device forgets the current one, IN is answered, SETUP and OUT are remembered; addresses and endpoint numbers are those in the packet (`Bus.HearToken`) |
| UsbDevice.Device.Se0 | usbtiny/usbdrv/asmcommon.inc:55-97 | which packets are stored and what is answered, for every packet and state |
| UsbDevice.Device.Interrupt | usbtiny/usbdrv/asmcommon.inc:43-152 | one run on any line: the same in terms of the packet received, with what was in the buffer before where it is shorter than three bytes; a waiting packet and everything to be sent meanwhile stay undisturbed, and the line and its answer are logged |
| UsbDevice.Device.Interrupts | usbtiny/usbdrv/asmcommon.inc:43-152 | any number of runs keeps the invariants, a waiting packet, and a transmit buffer that is not marked as filled; without packets nothing changes |
| UsbDevice.Device.CopyLoop | usbtiny/usbdrv/usbdrv.c:501-512 | the loop copies len bytes from usbMsgPtr into the buffer, whatever arrives in between |
| UsbDevice.Device.CopyMessage | usbtiny/usbdrv/usbdrv.c:500-514 | and usbMsgPtr then denotes the rest of the message |
| UsbDevice.Device.ReadFromApp | usbtiny/usbdrv/usbdrv.c:496-498 | the bytes that usbFunctionRead writes, up to the length asked for, are in the buffer and nothing else has changed; its result is the length |
| UsbDevice.Device.DeviceRead | usbtiny/usbdrv/usbdrv.c:492-517 | the next len bytes of the message, or those of usbFunctionRead, are in the buffer, the token is untouched, nothing has been sent |
| UsbDevice.Device.AppendCrc | usbtiny/usbdrv/usbdrv.c:536-536 | the buffer then holds token, payload and the CRC of that payload, and behind that what was there before, whatever arrives in between |
| UsbDevice.Device.FillBlock | usbtiny/usbdrv/usbdrv.c:526-534 | token toggled and the next chunk of the reply in place, or the next block of the application, whose calls and remaining length are counted |
| UsbDevice.Device.FinishBlock | usbtiny/usbdrv/usbdrv.c:535-544 | exactly that packet becomes ready to be sent; a short packet ends the message; what is left behind it in the buffer |
| UsbDevice.Device.BuildTxBlock | usbtiny/usbdrv/usbdrv.c:524-546 | exactly one more complete packet: the next of the transfer, or token, CRC and what usbFunctionRead supplies, with the state the next one depends on; or a stall, exactly if usbFunctionRead claims more than eight bytes |
| UsbDevice.Device.DriverRequest | usbtiny/usbdrv/usbdrv.c:365-410 | the reply to each standard request, which may use the end of the transmit buffer as scratch because nothing is to be sent; address, configuration and the toggle of the interrupt endpoint change exactly for their requests (what the host gets: `Requests.StandardRequest`) |
| UsbDevice.Device.SetRequest | usbtiny/usbdrv/usbdrv.c:389-407 | the requests that set the address, the configuration, and the toggle of the interrupt endpoint |
| UsbDevice.Device.DriverSetup | usbtiny/usbdrv/usbdrv.c:362-414 | usbMsgPtr denotes the reply and its length is returned; address and configuration change exactly for their requests, and exactly SET_INTERFACE resets the toggle of the interrupt endpoint to DATA1 |
| UsbProtocol.LimitedIsCut | usbtiny/usbdrv/usbdrv.c:465-471 | the test on two bytes cuts the reply to wLength |
| UsbDevice.Device.AbortTransfer | usbtiny/usbdrv/usbdrv.c:443-444 | a packet not yet sent is dropped and the next token is DATA1, although the token is rewritten before the length |
| UsbDevice.Device.LimitReply | usbtiny/usbdrv/usbdrv.c:453-471 | the length to be sent: of a reply from memory what wLength leaves of it, from the application the low byte of wLength, and nothing yet for control-out (`Requests.SuppliedRequest`, `Requests.TakenRequest`) |
| UsbDevice.Device.Setup | usbtiny/usbdrv/usbdrv.c:439-472 | the transfer that begins is that of the answer of the application or the driver, with the old configuration: from memory it carries the reply cut to wLength, from the application it starts with the length asked for and the buffer as it was; nothing built before is left; a standard request takes effect, and exactly SET_INTERFACE resets the toggle of the interrupt endpoint |
| UsbDevice.Device.OutData | usbtiny/usbdrv/usbdrv.c:473-484 | control-out data go to the application once and unmodified; its answer stalls, ends, or continues the transfer, and only a stall takes a packet back |
| UsbDevice.Device.ProcessRx | usbtiny/usbdrv/usbdrv.c:422-485 | the waiting packet is processed unmodified; only a SETUP of 8 bytes begins a transfer, which is then the one its answer asks for; everything else leaves the current one alone but for what the result of usbFunctionWrite asks for |
| UsbDevice.Device.PollRx | usbtiny/usbdrv/usbdrv.c:571-585 | the packet is processed before its half is handed back; the transfer afterwards is that of the last SETUP, with its answer and length; after a SETUP nothing is left to be sent; a packet is taken back only if the application refuses the data |
| UsbDevice.Device.ResetDataToggling | usbtiny/usbdrv/usbdrv.c:197-204 | the token of the interrupt endpoint is DATA1, and the rest of its buffer as before |
| UsbDevice.Device.PollReceive | usbtiny/usbdrv/usbdrv.c:570-585 | a packet that waits is processed, once, although usbRxLen is read while packets may arrive: a SETUP begins the transfer of its answer, and SET_INTERFACE resets the toggle; if none is, message, transfer, configuration and toggle stay as they are |
| UsbDevice.Device.PollTx | usbtiny/usbdrv/usbdrv.c:586-590 | a block is begun exactly if the buffer is free and there is a message; in a transfer from usbMsgPtr it is the next one; a stall only if usbFunctionRead claims more than eight bytes |
| UsbDevice.Device.PollReset | usbtiny/usbdrv/usbdrv.c:591-602 | a bus reset sets both addresses to 0 |
| UsbDevice.Device.Poll | usbtiny/usbdrv/usbdrv.c:565-603 | every call keeps the invariants and processes a packet that was waiting; a SETUP begins the transfer of its answer, and the first block of a reply is built in the same call; any other packet, or none, leaves reply and transfer as they are; configuration, address and the toggle of the interrupt endpoint change exactly for their requests; without a packet a block is begun exactly if the buffer was free and there was a message, and a stall needs the application; a bus reset clears both addresses |
| UsbDevice.Device.SetInterrupt | usbtiny/usbdrv/usbdrv.c:221-248 | the payload and its CRC become ready in one piece; the token toggles exactly if the last packet had left when the call began; exactly what is sent if nothing arrives, and if IN tokens arrive behind the test and behind the last assignment |
| UsbDevice.Device.SetIfReady | usbtiny/usbdrv/usbdrv.h:227-231 | usbSetInterrupt behind usbInterruptIsReady: called exactly if the last packet had left at the test, never early whatever arrives behind the test, and then the token toggles |
| UsbDevice.Device.constructor | usbtiny/usbdrv/usbdrv.c:607-623 | the initial state meets the invariants, with the interrupt endpoint's token reset |
| UsbDevice.Device.Run | usbtiny/usbdrv/usbdrv.c:565-603 | every sequence of calls with packets arriving anywhere in them keeps the invariants; no log is ever rewritten; the reply stays until a SETUP is processed, the toggle until a SET_INTERFACE is, and if all calls of usbSetInterrupt are guarded none is early; every unguarded one builds one packet, every guarded one at most one |
| UsbDevice.Device.Safety | usbtiny/usbdrv/usbdrv.c:422-603 | then every stored packet has been processed exactly once, in order and unmodified, but for at most one that waits; every packet sent on either endpoint is complete, with token, at most eight bytes and their CRC, and packets leave in the order in which they were built, each once at most; in a control-in transfer without a stall the host has the first packets built, with the tokens due, and, served from usbMsgPtr, a prefix of the transfer, all of it once nothing is left to send |
| UsbDevice.Device.ServedTransfer | usbtiny/usbdrv/usbdrv.c:422-603 | if the last SETUP was answered by bytes, the host has received the first packets of them, cut to wLength, and once nothing is left to send their payloads concatenate to exactly that, in well-formed packets |
| UsbDevice.Device.SuppliedTransfer | usbtiny/usbdrv/usbdrv.c:492-546 | if it was answered by USB_NO_MSG, and neither a stall nor another packet has come since, the host has received block after block of what usbFunctionRead returned; an application that writes what it says gets exactly its data across, up to the low byte of wLength; nothing is sent if that byte is 255 |
| UsbDevice.Device.RunControlIn | usbtiny/usbdrv/usbdrv.c:422-603 | from the SETUP in the receive buffer through any run without another one: what the host has received at its end is the answer to that SETUP, in both cases |
| UsbProtocol.SupplyIsTransferred | usbtiny/usbdrv/usbdrv.h:267-273 | the blocks of such an application are the transfer of its data: eight bytes each, right tokens, and the first shorter one ends it |
| UsbProtocol.SupplyAll | usbtiny/usbdrv/usbdrv.h:267-273 | an application that always returns as much as it is asked for gets as many bytes across as are requested |
| UsbDevice.Device.TokensAlternate | usbtiny/usbdrv/usbdrv.c:230-234 | if usbSetInterrupt has only been called when the last packet had left, or a received packet waited, no two packets in a row on the interrupt endpoint have the same token, since the last reset of the toggle |
| UsbDevice.Device.RunGuarded | usbtiny/usbdrv/usbdrv.h:227-231 | in every run in which each usbSetInterrupt is guarded by usbInterruptIsReady and no SET_INTERFACE is processed, all packets on the interrupt endpoint have alternating tokens, those before the run included |
| Bus.PidCodes | usbtiny/usbdrv/usbdrv.h:631-639 | every identifier is the code of table 8-1 of USB 2.0 with its complement, and all such identifiers are well-formed |
| Bus.DataArrives | usbtiny/usbdrv/usbdrvasm165.inc:104-331 | every data packet of up to eight bytes is received as it is, on every line that carries it |
| Bus.HearData | usbtiny/usbdrv/asmcommon.inc:105-128 | such a packet behind a SETUP or OUT token, with the buffer free, is acknowledged, and is stored unchanged with that token if it has one to eight bytes and not if it is empty; while a packet waits it gets NAK and is not stored; without a token it is ignored |
| Bus.TokenFields | usbtiny/usbdrv/asmcommon.inc:67-76 | for every address, endpoint number and CRC: the comparison holds exactly for the device's own address, and the endpoint number is the one in the packet, whatever the CRC is |
| Bus.HearForeign | usbtiny/usbdrv/asmcommon.inc:67-72 | a token for another address is not answered and forgets the token before |
| Bus.HearAnnounced | usbtiny/usbdrv/asmcommon.inc:79-97 | SETUP and OUT for the device's address are remembered as what they are |
| Bus.HearIn | usbtiny/usbdrv/asmcommon.inc:130-152 | IN for the device's address gets NAK while a received packet waits, otherwise what the endpoint of that number has in its buffer, which is then gone and makes a new address effective |
| Bus.HearToken | usbtiny/usbdrv/asmcommon.inc:67-152 | all three, for every token on every line that carries it, in terms of address and endpoint number only |
| Bus.HearTransaction | usbtiny/usbdrv/asmcommon.inc:67-128 | a SETUP or OUT transaction of one to eight bytes for this device is stored with its token if the buffer is free; one for another device is not stored, whatever token came before |
| Bus.AcknowledgedIsStored | usbtiny/usbdrv/asmcommon.inc:105-128 | at the end of every run, every data packet with a payload that was acknowledged is among the stored ones, in the order of the bus |
| Bus.StoredWasAcknowledged | usbtiny/usbdrv/asmcommon.inc:105-128 | and every stored packet was a data packet on the bus and was acknowledged |
| Requests.PollSetup | usbtiny/usbdrv/usbdrv.c:422-472 | one call of usbPoll processes the SETUP that waits; the address becomes byte 2 of SET_ADDRESS and the configuration byte 2 of SET_CONFIGURATION, and neither changes otherwise |
| Requests.StandardAnswer | usbtiny/usbdrv/usbdrv.c:362-414 | the transfer for a standard request carries [0, 0] for GET_STATUS, the descriptor, the configuration, [0] for GET_INTERFACE, cut to wLength, and is one empty packet for all others |
| Requests.StandardRequest | usbtiny/usbdrv/usbdrv.c:362-485 | over whole runs: once nothing is left to send, the host has received exactly that, and the configuration it gets is the value of the last SET_CONFIGURATION processed, or the initial one |
| Requests.FirstSupplied | usbtiny/usbdrv/usbdrv.c:453-463 | for a control-in request answered by USB_NO_MSG, with an application that always returns as much as it is asked for, the call that processes the SETUP asks for min(8, wLength) bytes and builds the packet with them |
| Requests.SuppliedRequest | usbtiny/usbdrv/usbdrv.c:453-546 | and once nothing is left to send, without another packet in between, the host has received as many bytes as the low byte of wLength says, in well-formed packets, and they are those the application returned |
| Requests.TakenRequest | usbtiny/usbdrv/usbdrv.c:473-484 | for a control-out request answered by USB_NO_MSG, in every run: usbFunctionRead is never called, nothing is built before usbFunctionWrite has returned something other than 0 and 0xff, and what is built then begins with an empty DATA1 packet, which is the only one if there was one such result |
| Requests.FinalData | usbtiny/usbdrv/usbdrv.c:473-484 | and the call of usbPoll that passes on the last data builds it |
| InterruptEndpoint.PacketArrives | usbtiny/usbdrv/usbdrvasm165.inc:104-331 | for every packet with a well-formed identifier there is a line on which it is received |
| InterruptEndpoint.RepeatsToken | usbtiny/usbdrv/usbdrv.c:230-234 | from every state in which the last packet may still leave, there are packets on the bus for which usbSetInterrupt makes two packets in a row leave with the same token |
| InterruptEndpoint.RaceRun | usbtiny/usbdrv/usbdrv.c:221-248 | a run from power-up in which the two packets sent have the same token |
| UsbProtocol.HalfKept | usbtiny/usbdrv/asmcommon.inc:122-127 | receiving into one half leaves the packet in the other alone |
| DwTarget.InOutDecodes | src/dwire/DwPort.c:76-77 | the register and I/O address that the device decodes from an `in` or `out` are those that were encoded |
| DwPort.AddressArrives | src/dwire/DwPort.c:67-72 | the address flag never overlaps an address bit, and the device sees the address that was meant |
| DwPort.FeedInst | src/dwire/DwPort.c:74-74 | the five bytes execute that instruction once in single step mode |
| DwPort.FeedBlock | src/dwire/DwPort.c:98-108 | the bytes of a block go to consecutive registers |
| DwPort.Host.DwSetPC | src/dwire/DwPort.c:71-71 | PC, and nothing else |
| DwPort.Host.DwSetBP | src/dwire/DwPort.c:72-72 | BP, and nothing else |
| DwPort.Host.DwInst | src/dwire/DwPort.c:74-74 | the instruction's effect on the device |
| DwPort.Host.DwIn | src/dwire/DwPort.c:76-76 | the register gets the I/O register's value, or the next byte from the host for DWDR |
| DwPort.Host.DwOut | src/dwire/DwPort.c:77-77 | the I/O register is written, or the register is sent to the host for DWDR |
| DwPort.Host.DwSetReg | src/dwire/DwPort.c:96-96 | the register holds the value |
| DwPort.Host.DwSetRegs | src/dwire/DwPort.c:98-108 | exactly those registers hold the values, by either of the two ways of sending them |
| DwPort.Host.DwSetZ | src/dwire/DwPort.c:110-110 | Z holds the address and the repeating mode has been left |
| DwPort.Host.DwGetRegs | src/dwire/DwPort.c:85-94 | the registers' values, nothing but control registers changed |
| DataMemory.DwUnsafeReadAddr | src/dwire/DwPort.c:118-125 | the cells of a block of at most 128 that avoids Z and DWDR |
| DataMemory.DwReadAddr | src/dwire/DwPort.c:127-147 | every range of the data space as the user is to see it: device, cached r28 to r31, 0 at DWDR; no unsafe or oversized block is ever asked for |
| DataMemory.WritableMore | src/dwire/DwPort.c:155-164 | how a writable range grows by one cell |
| DataMemory.OrdinaryAfterSpecial | src/dwire/DwPort.c:156-158 | outside the repeating mode the bytes that write a cell are not accepted |
| DataMemory.FeedStrobe | src/dwire/DwPort.c:157-158 | what a byte stored to EECR does: without a strobe it is only stored, a read strobe fetches a byte, the first half of a timed write only arms it, any other strobe is undocumented; the strobes are not kept |
| DataMemory.DwWriteAddr | src/dwire/DwPort.c:150-166 | for every range and every byte: the device is asked for something undocumented if and only if an ordinary cell follows a special one or EECR gets strobes other than none, a read strobe, or the first half of a timed write; otherwise the view of the data space is the old one with the bytes laid over it, EECR without its strobes, but for EEDR after a read strobe |
| DataMemory.WriteThenRead | src/dwire/DwPort.c:127-166 | every range that can be written is read back as it was written, but for DWDR and the strobes in EECR |
| FlashPages.AndTaken | src/commands/NonVolatile.c:183-183 | `~page & buf` is zero exactly if programming alone gives the new byte |
| FlashPages.PlanWorks | src/commands/NonVolatile.c:176-200 | the plan of WriteFlashPage gives the new page |
| FlashPages.WearIsMinimal | Manual.md:117-123 | no sequence of erasures and page programs from the old page to the new one has fewer of either |
| FlashWrite.WriteAllAt | src/commands/NonVolatile.c:210-264 | every byte of flash after WriteFlash: written, kept, or lost |
| FlashWrite.BusyBeforeTailIs | src/commands/NonVolatile.c:242-255 | whether the last part of a page can be read back depends on the page before it alone |
| FlashWrite.ExactOverlayIff | src/commands/NonVolatile.c:166-264 | WriteFlash is an exact overlay if and only if every byte it could not read back happened to have the value that unreadable flash reads as |
| FlashWrite.AlwaysExactIff | src/commands/NonVolatile.c:166-264 | it is one whatever unreadable flash reads as, if and only if no part of a page is read while the flash is busy at the start, and, on a part with a boot section, the page before an incomplete last one does not change to all ones |
| FlashWrite.WriteAllBusy | src/commands/NonVolatile.c:192-202 | the flash is left unreadable exactly if the last page written has changed to all ones, on a part with a boot section |
| FlashWrite.WrittenBytes | src/commands/NonVolatile.c:210-264 | the range itself always holds the bytes written |
| FlashWrite.NoBootSectionIsExact | src/commands/NonVolatile.c:210-264 | without a boot section it always is |
| FlashWrite.WholePagesAreExact | src/commands/NonVolatile.c:240-247 | with readable flash a range that ends with a page always is |
| FlashWrite.LossExample | src/commands/NonVolatile.c:192-194 | a write on an ATmega88 that destroys bytes outside its range |
| FlashWrite.RangeInFlash | src/commands/NonVolatile.c:212-222 | every range within flash lies in whole pages of it, aligned or not |
| NonVolatile.ReadSPMCSR | src/commands/NonVolatile.c:7-14 | the operation while it is under way, 0 once it is over |
| NonVolatile.RenableRWW | src/commands/NonVolatile.c:17-24 | flash can be read again |
| NonVolatile.DwReadFlash | src/commands/NonVolatile.c:97-110 | the bytes of every range in readable flash, refused beyond the end; each run of program addresses stays within the device |
| NonVolatile.EraseFlashPage | src/commands/NonVolatile.c:113-121 | exactly that page becomes 0xff, in one erasure |
| NonVolatile.LoadPageBuffer | src/commands/NonVolatile.c:125-136 | the page buffer holds the page, every word loaded once |
| NonVolatile.ProgramPageAt | src/commands/NonVolatile.c:140-153 | exactly that page becomes the bitwise and of itself and the page buffer; the operation is over |
| NonVolatile.MustErase | src/commands/NonVolatile.c:181-184 | an erasure is asked for exactly if some bit has to go from 0 to 1 |
| NonVolatile.WriteFlashPage | src/commands/NonVolatile.c:166-203 | exactly that page holds the new bytes, with the minimum of erasures and programs |
| NonVolatile.WritePages | src/commands/NonVolatile.c:240-258 | the loop over whole pages and the last part of a page |
| NonVolatile.WriteHead | src/commands/NonVolatile.c:218-236 | the part of the first page |
| NonVolatile.WriteFlash | src/commands/NonVolatile.c:210-264 | the visible flash becomes what `FlashWrite.WriteAll` says, an exact overlay without a boot section; r0 to r27 on the device and r28 to r31 in the cache are as before |
| NonVolatile.WriteThenRead | src/commands/NonVolatile.c:97-264 | every range within flash is read back as it was written, unless the page it ends in has changed to all ones on a part with a boot section; then it is read as unreadable flash |
| Eeprom.SetAddress | src/commands/NonVolatile.c:324-325 | the EEPROM address is Z, with or without an EEARH register |
| Eeprom.Strobe | src/commands/NonVolatile.c:367-368 | the timed sequence writes EEDR to exactly the addressed cell |
| Eeprom.DwWriteEEPROM | src/commands/NonVolatile.c:345-377 | exactly those cells hold the bytes, r0 to r27 are as before; beyond the end it is refused |
| Eeprom.ReadGroup | src/commands/NonVolatile.c:322-330 | five cells, as far as they exist, and Z is five further |
| Eeprom.DwReadEEPROM | src/commands/NonVolatile.c:309-342 | the cells of every range, unaffected by what the last group reads beyond it; EEPROM and r0 to r27 are as before |
| Eeprom.WriteThenRead | src/commands/NonVolatile.c:309-377 | every range that exists is read back as it was written; any other is refused |
| Eeprom.ReadConfigBits | src/commands/NonVolatile.c:44-52 | the byte asked for; flash, EEPROM and r0 to r27 are as before |
| Parts.AllSupported | src/dwire/Connection.c:33-62 | every row of the table meets the assumptions of the routines: 64 bytes from the boot section stay within the program addresses, the address flag is clear of them, one address byte is enough where there is no EEARH |
| BaudSearch.ScaleRange | src/dwire/Serial.c:224-284 | the scale is 100 exactly for 0x55, otherwise 20 to 95 |
| BaudSearch.CountRuns | src/dwire/Serial.c:233-251 | the array holds how often each run length occurs among the bits |
| BaudSearch.ScaleBy | src/dwire/Serial.c:224-284 | the result is the scale defined from the runs of the bits, for every byte; what the scales do is the subject of `BaudDescent.PulseOrder`, `BaudDescent.ZeroStartOrder` and `BaudPulses.EnoughAlways` |
| BaudSearch.CoarseStep | src/dwire/Serial.c:342-346 | a step from a rate at which the search does not end is strictly downwards, and to 0 from a refused rate |
| BaudSearch.CoarseEndsIff | src/dwire/Serial.c:339-346 | on every port: the coarse search ends if and only if it does not stick at rate 0 |
| BaudSearch.ReachedIff | src/dwire/Serial.c:339-346 | where the working rates are an interval that no step of the search jumps over, one is reached if and only if every rate above them that is visited can be set and is answered |
| BaudSearch.AnsweredEnds | src/dwire/Serial.c:339-346 | that condition is enough for the coarse search to end at a working rate, and for the fine search to end if no working rate is below 50 |
| BaudSearch.FineEndsIff | src/dwire/Serial.c:357-373 | among bounded working rates other than 0 the fine search ends if and only if it starts at 50 or above; below, it tries the same rate for ever |
| BaudSearch.RefusedRateSticks | src/dwire/Serial.c:342-346 | once a rate that the search visits is refused, the rate is 0 for ever, and the search ends only if it does so at rate 0 |
| BaudSearch.StickingExample | src/dwire/Serial.c:339-346 | a port that accepts 150000 and works from 9000 to 9200, on which the search visits 30000, is refused, and never ends |
| BaudSearch.FindWorkingRate | src/dwire/Serial.c:330-346 | on every port on which the descent ends: it ends with a working rate that it has visited, with 0 exactly if the first rate is refused, or by Fail at a rate without an answer |
| BaudSearch.FindUpperBound | src/dwire/Serial.c:357-364 | a working rate that works no more 2% higher, or Fail exactly if that rate is not answered |
| BaudSearch.FindLowerBound | src/dwire/Serial.c:366-373 | a working rate that works no more 2% lower, or Fail exactly if that rate is not answered |
| BaudSearch.FindBaudRate | src/dwire/Serial.c:328-378 | on every port on which it ends: the result is 0 exactly if the first rate is refused; otherwise, if no rate that can be set goes unanswered, there is a result; for working rates that are an interval it is within about 1% and rounding of their middle |
| BaudPulses.RunsExpand | src/dwire/Serial.c:233-251 | cutting a sequence into runs gives back the runs it was made of |
| BaudPulses.Between | src/dwire/Serial.c:263-281 | which bit of the frame each sample falls into, from how many samples come before each of its edges |
| BaudPulses.Reads | src/dwire/Serial.c:224-284 | the scale for what a receiver at one rate makes of 0x55 sent at another, from the same numbers: the runs are how many samples each frame bit gets |
| BaudPulses.EnoughAlways | src/dwire/Serial.c:342-346 | for all rates at which the receiver is not too slow: the next rate is not below that of the device if and only if the rate is not 4.25 to 4.5 times that of the device; it never is below 85% of it; and the byte is the expected one exactly if the rate is at most 1/16 too high |
| BaudDescent.PulseOrder | src/dwire/Serial.c:275-281 | from the same rate, wider pulses lead to a strictly lower one: two runs of three bits, of two, of one, then a single run of four, of five, of six or seven |
| BaudDescent.ZeroStartOrder | src/dwire/Serial.c:263-271 | of two bytes that are all 0 behind their leading ones, the wider pulse leads to a higher rate if and only if it has four to seven bits |
| BaudDescent.ZeroStartExample | src/dwire/Serial.c:263-271 | 0xf8 leads from 150000 to 30000, 0x80 to 142500 |
| BaudDescent.WorksIff | src/dwire/Serial.c:230-230 | exactly the rates less than 1/18 below and at most 1/16 above that of the device receive 0x55 |
| BaudDescent.SampledReachedIff | src/dwire/Serial.c:328-346 | the descent finds such a device if and only if its lowest working rate is not above the first one and no rate visited is 4.25 to 4.5 times that of the device; no step then jumps over the working rates |
| BaudDescent.MissedBelow | src/dwire/Serial.c:263-271 | a device 7.1 to 8.5 times slower than a visited rate is never found |
| BaudDescent.MissedFromStart | src/dwire/Serial.c:330-346 | no device of 17648 to 21176 or 33334 to 35294 baud is found, although its own rate works |
| BaudDescent.FastIsFound | src/dwire/Serial.c:330-346 | every device of 35295 to 158823 baud is |
| BaudDescent.FindSampledRate | src/dwire/Serial.c:328-378 | where the descent finds a device of 52 baud or more, FindBaudRate returns its rate within 1% and one unit below and 2% and one unit above |
| Transport.OutBuffer.Flush | src/dwire/Serial.c:146-151 | everything sent so far is on the wire, and nothing is transmitted for an empty buffer |
| Transport.OutBuffer.SerialSend | src/dwire/Serial.c:153-170 | bytes on the wire followed by bytes buffered are all bytes sent; what stays in the buffer is the remainder by its size |
| Transport.OutBuffer.DigisparkSend | src/dwire/DigiSpark.c:218-235 | the same, with exactly how many bytes stay; a send of at least one byte leaves at least one in the buffer |
| Transport.OutBuffer.BeforeReceive | src/dwire/DigiSpark.c:243-250 | everything sent is on the wire before the answer is read, and there is a transaction for it if anything was buffered |
| Transport.LongRemainder | src/dwire/Serial.c:155-169 | a send that leaves 200 bytes in the serial port's buffer |
| Transport.Session | src/dwire/DigiSpark.c:201-259 | no sequence of sends, flushes and receives loses, repeats or reorders a byte |

## Left out

- UsbDevice.Device.Safety: in a control-in transfer that the application stalls, a packet can be withdrawn, and the tokens from then on are not stated.
- UsbDevice.Device.SuppliedTransfer: when the host sends other packets during such a transfer, each of its packets is still what BuildTxBlock says, but they are not stated as a whole.
- BaudSearch.FindBaudRate: what a device answers at a rate is taken not to depend on the length of the break or on earlier trials.
- BaudDescent.SampledReachedIff: the byte is the first one of one ideal frame behind an idle line; jitter, the break itself, and the further bytes that GetSyncByte reads when it skips 0 or 0xff (`Serial.c:205-208`) are not modelled.
- Eeprom.DwReadEEPROM: SREG, which `adiw` changes and the code does not restore, and the EEPROM's own I/O registers are not among what is as before; the same holds for the other EEPROM and flash routines with SPMCSR.
- NonVolatile.ReadSPMCSR: how long an operation takes is a number of polls that the device chooses.
- Transmitter.Transmit165: the handshake packets, whose only data byte is read from r0 at address 0, are the case of a one byte memory.
- Timing: cycle counts, sampling phase and the phase locked loop, leap cycles, the search for the sync pattern, frame-length measurement; a line is one port reading per bit time from the first bit after sync.
- The codec variants for 12.8, 15 and 16 MHz, the receive loop of the 12 MHz driver, and the bit slots of the 18 MHz receiver other than their CRC work: further forms of the same codec.
- The CRC check is proved for the 18 MHz receiver; the firmware is built without it, so the interrupt routine here does not check CRCs either.
- Parts of the driver that the configuration switches off: endpoint 3, halt, OUT endpoints, flow control, data toggle checking, long transfers, reset and frame hooks.
- DataMemory.DwWriteAddr: what a device does once it has been asked for something undocumented is not modelled. I/O registers other than EECR, EEDR, DWDR and SPMCSR are cells that hold what is stored.
- Descriptor contents, and the application's usbFunctionSetup, usbFunctionRead and usbFunctionWrite: parameters of the device (`App`). Whether usbMsgPtr is in ROM or RAM makes no difference to the bytes read.
- debugWIRE commands the modelled routines do not use (reset, go, trace, disable), resynchronisation with break and 0x55, delays, and the disassembler of the protocol notes' other modes.
- The scratch register of the repeating modes is taken not to be one of r0 to r31, as the notes leave open. What the notes leave open otherwise (unreadable flash, EEPROM beyond its end, fuse and lock bytes) is a parameter (`Unknown`).
- `Fail` and `Assert` end a command: they are a refused result or a precondition.
- Serial ports, libusb and files, retries of USB transactions, user interface, command parsing, disassembler, gdb server, ELF loading: foreign calls or interface code without the structure proved here.
