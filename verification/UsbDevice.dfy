/** The device side of the USB protocol: the interrupt routine (atomic; one run per packet on the bus) and the main
    loop, which the interrupt routine may enter between any two assignments. */
module UsbDevice {
  import opened Line
  import opened Registers
  import opened Reception
  import opened Receiver165
  import opened Crc16
  import opened ControlTransfer
  import opened UsbProtocol

  class Device {
    const rxBuf: array<bv8>      // usbRxBuf: two halves
    const txBuf: array<bv8>      // usbTxBuf
    const tx1Buf: array<bv8>     // usbTxStatus1.buffer
    var inputBufOffset: nat
    var rxLen: nat
    var rxToken: bv8
    var currentTok: bv8
    var deviceAddr: bv8
    var newDeviceAddr: bv8
    var txLen: nat
    var tx1Len: nat              // usbTxStatus1.len

    var msgLen: nat
    var userRw: bool             // USB_FLG_USE_USER_RW
    var msgPtr: Pointer
    var configuration: bv8
    const app: App
    var calls: nat

    /** What the line does before each step of the main loop: the packets that arrive there. */
    var arrivals: Schedule

    ghost var traffic: seq<Exchange>    // packets on the bus so far
    ghost var accepted: seq<Accepted>   // stored by the interrupt routine
    ghost var processed: seq<Accepted>  // as the main loop found them when it was done with them
    ghost var handled: bool             // the stored packet is in processed already
    ghost var built: seq<seq<bv8>>      // packets completed by usbBuildTxBlock
    ghost var sent: seq<seq<bv8>>       // data packets sent on endpoint 0
    ghost var locked: bool              // usbTxBuf is being reused
    ghost var built1: seq<seq<bv8>>     // packets completed by usbSetInterrupt
    ghost var sent1: seq<seq<bv8>>      // data packets sent on endpoint 1
    ghost var request: Request          // the last SETUP, and what its answer depended on
    ghost const initial: bv8            // configuration at power-up
    ghost var readLens: seq<nat>        // what usbFunctionRead has been asked for since then
    ghost var writeResults: seq<nat>    // what usbFunctionWrite has returned since then
    ghost var served: bool              // a control-in transfer is running from usbMsgPtr
    ghost var blocks: seq<seq<bv8>>     // packets built for it
    ghost var delivered: seq<seq<bv8>>  // packets sent for it

    ghost var reply: seq<bv8>           // what it is to carry
    ghost var toggles: nat              // packets begun since the last SETUP
    ghost var intact: bool              // no packet begun since then has been withdrawn by a stall

    ghost var reset1: nat               // packets sent on endpoint 1 before its toggle was last reset
    ghost var turned1: bool             // its token is that of the next packet already
    ghost var early: bool               // usbSetInterrupt has been called while a packet could still leave

    ghost predicate Shape() {
      && rxBuf.Length == 2 * USB_BUFSIZE && txBuf.Length == USB_BUFSIZE && tx1Buf.Length == USB_BUFSIZE
      && rxBuf != txBuf && rxBuf != tx1Buf && txBuf != tx1Buf
    }

    /** The packet waiting in the half that the interrupt routine does not receive into. */
    ghost function Stored(): seq<bv8>
      requires Shape() && inputBufOffset <= USB_BUFSIZE && rxLen <= USB_BUFSIZE
      reads `inputBufOffset, `rxLen, rxBuf
    {
      rxBuf[USB_BUFSIZE - inputBufOffset..USB_BUFSIZE - inputBufOffset + rxLen]
    }

    /** The double buffer: everything accepted is processed, in order, but for the packet that still waits. */
    ghost predicate RxValid()
      reads `inputBufOffset, `rxLen, `rxToken, `handled, `accepted, `processed, rxBuf
    {
      && Shape()
      && (inputBufOffset == 0 || inputBufOffset == USB_BUFSIZE)
      && (rxLen == 0 || 4 <= rxLen <= USB_BUFSIZE)
      && (rxLen == 0 ==> !handled)
      && accepted == processed + (if rxLen != 0 && !handled then [Accepted(rxToken, Stored())] else [])
    }

    /** A data length in usbTxLen stands for the last block built, complete. */
    ghost predicate TxValid()
      reads `locked, `txLen, `built, txBuf
    {
      && Shape()
      && (locked || IsHandshake(txLen)
          || (4 <= txLen <= 12 && built != [] && txBuf[..txLen - 1] == built[|built| - 1]))
    }

    /** usbTxBuf is only reused with a length in place while a received packet holds off the interrupt routine. */
    ghost predicate LockValid()
      reads `locked, `rxLen, `intact
    {
      locked ==> rxLen != 0 && !intact
    }

    /** The current transfer: what is sent is what was built, but for a packet that is still in the buffer. */
    ghost predicate Delivery()
      reads `intact, `txLen, `delivered, `blocks, `built
    {
      intact ==> if IsHandshake(txLen) then delivered == blocks
                 else built != [] && blocks == delivered + [built[|built| - 1]]
    }

    /** Packets are sent in the order in which they were built, and each once at most. */
    ghost predicate Sent()
      reads `sent, `built, `txLen
    {
      Subsequence(sent, Gone(txLen, built))
    }

    ghost predicate Tx1Valid()
      reads `tx1Len, `built1, `turned1, tx1Buf
    {
      && Shape() && IsDataToken(tx1Buf[0]) && (turned1 ==> IsHandshake(tx1Len))
      && (IsHandshake(tx1Len)
          || (4 <= tx1Len <= 12 && built1 != [] && tx1Buf[1..tx1Len - 1] == built1[|built1| - 1]))
    }

    /** The same for endpoint 1, where only the bytes behind the token are built ahead. */
    ghost predicate Sent1()
      reads `sent1, `built1, `tx1Len
    {
      && (forall p <- sent1 :: p != [] && IsDataToken(p[0]))
      && Subsequence(Bodies(sent1), Gone(tx1Len, built1))
    }

    /** Unless usbSetInterrupt has been called too early, the tokens on endpoint 1 alternate since the last reset, and
        the one in the buffer tells whether it has been sent. */
    ghost predicate Toggled1()
      reads `sent1, `tx1Len, `turned1, `reset1, `early, tx1Buf
    {
      && Shape() && reset1 <= |sent1| && NoneEmpty(sent1)
      && (!early ==>
            && Alternate(sent1[reset1..])
            && (reset1 < |sent1| ==>
                  (sent1[|sent1| - 1][0] == tx1Buf[0] <==> IsHandshake(tx1Len) && !turned1)))
    }

    /** The address is kept as it is compared: shifted. */
    ghost predicate AddressValid()
      reads `deviceAddr
    {
      (deviceAddr & 1) == 0
    }

    /** What is stored is what has been acknowledged: every data packet with a payload, in order, and nothing else. */
    ghost predicate Logged()
      reads `traffic, `accepted
    {
      AckedPackets(traffic) == PacketsOf(accepted)
    }

    /** Holds between any two steps of the interrupt routine. */
    ghost predicate Inside()
      reads `inputBufOffset, `rxLen, `rxToken, `handled, `accepted, `processed, rxBuf
      reads `locked, `txLen, `built, `intact, `delivered, `blocks, `sent, txBuf
      reads `tx1Len, `built1, `sent1, `reset1, `turned1, `early, `deviceAddr, tx1Buf
    {
      && Shape() && RxValid() && TxValid() && LockValid() && Delivery() && Sent()
      && Tx1Valid() && Sent1() && Toggled1() && AddressValid()
    }

    /** Holds between any two steps of the main loop. */
    ghost predicate Shared()
      reads `inputBufOffset, `rxLen, `rxToken, `handled, `accepted, `processed, rxBuf
      reads `locked, `txLen, `built, `intact, `delivered, `blocks, `sent, txBuf
      reads `tx1Len, `built1, `sent1, `reset1, `turned1, `early, `deviceAddr, tx1Buf, `traffic
    {
      Inside() && Logged()
    }

    /** What no packet on the bus changes: a stored packet until the main loop is done with it, and, meanwhile,
        everything that is to be sent; a transmit buffer that is not marked as filled.  A new device address takes
        effect only when a data packet leaves. */
    twostate predicate Undisturbed()
      reads this
    {
      && (old(rxLen) != 0 ==> rxLen == old(rxLen) && rxToken == old(rxToken) && inputBufOffset == old(inputBufOffset)
                              && accepted == old(accepted))
      && (old(rxLen) != 0 || IsHandshake(old(txLen)) ==>
            txLen == old(txLen) && sent == old(sent) && delivered == old(delivered))
      && (old(rxLen) != 0 || IsHandshake(old(tx1Len)) ==> tx1Len == old(tx1Len) && sent1 == old(sent1))
      && old(accepted) <= accepted && old(sent) <= sent && old(sent1) <= sent1
      && (deviceAddr == old(deviceAddr)
          || (deviceAddr == newDeviceAddr << 1 && (old(sent) < sent || old(sent1) < sent1)))
    }

    /** Histories only grow. */
    twostate predicate Grown()
      reads `accepted, `sent, `sent1, `traffic
    {
      old(accepted) <= accepted && old(sent) <= sent && old(sent1) <= sent1 && old(traffic) <= traffic
    }

    /** Nothing has arrived. */
    twostate predicate Still()
      reads this
    {
      && inputBufOffset == old(inputBufOffset) && rxLen == old(rxLen) && rxToken == old(rxToken)
      && currentTok == old(currentTok) && accepted == old(accepted) && traffic == old(traffic)
      && txLen == old(txLen) && tx1Len == old(tx1Len) && deviceAddr == old(deviceAddr)
      && sent == old(sent) && sent1 == old(sent1) && delivered == old(delivered)
    }

    /** A packet is ready on endpoint 1, and no received packet holds it back. */
    ghost predicate MayLeave1()
      reads `rxLen, `tx1Len
    {
      rxLen == 0 && 4 <= tx1Len <= 12
    }

    ghost function Waiting1(): seq<bv8>
      requires Shape() && 4 <= tx1Len <= 12
      reads `tx1Len, tx1Buf
    {
      tx1Buf[..tx1Len - 1]
    }

    /** What the next gap brings is one IN token that endpoint 1 will answer with its packet. */
    ghost predicate Polled1()
      reads `rxLen, `tx1Len, `arrivals, `deviceAddr
    {
      MayLeave1() && |arrivals| > 0 && |arrivals[0]| == 1 && Polls1(arrivals[0][0], deviceAddr)
    }

    /** The answer to an IN token: a data packet is gone from its buffer, and makes a new address effective. */
    twostate predicate Left(reply: Reply, endpoint: bv8)
      reads `txLen, `tx1Len, `rxLen, `deviceAddr, `newDeviceAddr, `sent, `sent1
    {
      var packets := if reply.Data? then [reply.packet] else [];
      && sent == old(sent) + (if endpoint == 0 then packets else [])
      && sent1 == old(sent1) + (if endpoint != 0 then packets else [])
      && (if reply.Data? then
            && rxLen == 0 && deviceAddr == newDeviceAddr << 1
            && txLen == (if endpoint == 0 then USBPID_NAK else old(txLen))
            && tx1Len == (if endpoint != 0 then USBPID_NAK else old(tx1Len))
          else deviceAddr == old(deviceAddr) && txLen == old(txLen) && tx1Len == old(tx1Len))
    }

    /** Nothing has left. */
    twostate predicate NothingLeft()
      reads `txLen, `tx1Len, `deviceAddr, `sent, `sent1
    {
      && sent == old(sent) && sent1 == old(sent1)
      && deviceAddr == old(deviceAddr) && txLen == old(txLen) && tx1Len == old(tx1Len)
    }

    /** What one gap in the main loop brings: the next group of packets. */
    twostate predicate Gap()
      requires Shape()
      reads this, tx1Buf
    {
      && arrivals == Later(old(arrivals), 1)
      && |traffic| == |old(traffic)| + (if |old(arrivals)| == 0 then 0 else |old(arrivals)[0]|)
      && (Quiet(old(arrivals), 1) ==> Still())
      && (old(Polled1()) ==> Left(Data(old(Waiting1())), 1))
    }

    // ---- the interrupt routine

    method HandleData(n: nat) returns (reply: Reply)
      requires RxValid() && n <= USB_BUFSIZE
      modifies `inputBufOffset, `rxLen, `rxToken, `accepted
      ensures RxValid()
      ensures reply == DataReply(currentTok, old(rxLen))
      ensures var stores := Stores(currentTok, old(rxLen), n);
              && accepted == old(accepted)
                 + (if stores then [Accepted(currentTok, rxBuf[old(inputBufOffset)..old(inputBufOffset) + n])] else [])
              && rxLen == (if stores then n else old(rxLen))
              && rxToken == (if stores then currentTok else old(rxToken))
              && inputBufOffset == (if stores then USB_BUFSIZE - old(inputBufOffset) else old(inputBufOffset))
    {
      var shift := currentTok;
      if shift == 0 { return Silent; }
      if rxLen != 0 { return Handshake(USBPID_NAK); }
      if n < 4 { return Handshake(USBPID_ACK); }
      rxLen := n;
      rxToken := shift;
      inputBufOffset := USB_BUFSIZE - inputBufOffset;
      accepted := accepted + [Accepted(rxToken, Stored())];
      return Handshake(USBPID_ACK);
    }

    /** handleIn for endpoint 0, with the transmission itself: the packet leaves in one piece, and only a data packet
        makes a new device address effective. */
    method HandleIn0() returns (reply: Reply)
      requires TxValid() && LockValid() && Delivery() && Sent() && rxLen == 0
      modifies `txLen, `deviceAddr, `sent, `delivered
      ensures TxValid() && Delivery() && Sent()
      ensures old(AddressValid()) ==> AddressValid()
      ensures reply == InReply(old(txLen), txBuf[..]) && !reply.Silent?
      ensures reply.Data? ==> reply.packet in built && txLen == USBPID_NAK && deviceAddr == newDeviceAddr << 1
      ensures !reply.Data? ==>
                txLen == old(txLen) && deviceAddr == old(deviceAddr) && sent == old(sent) && delivered == old(delivered)
      ensures sent == old(sent) + (if reply.Data? then [reply.packet] else [])
      ensures delivered == old(delivered) + (if reply.Data? then [reply.packet] else [])
    {
      hide Subsequence;
      var cnt := txLen;
      if IsHandshake(cnt) { return Handshake(cnt); }
      GoneMore(cnt, USBPID_NAK, sent, built);
      txLen := USBPID_NAK;
      reply := Data(txBuf[..cnt - 1]);
      sent := sent + [reply.packet];
      delivered := delivered + [reply.packet];
      deviceAddr := newDeviceAddr << 1;
      ShiftedEven(newDeviceAddr);
    }

    /** handleIn1: the same for the interrupt endpoint. */
    method HandleIn1() returns (reply: Reply)
      requires Tx1Valid() && Sent1() && Toggled1()
      modifies `tx1Len, `deviceAddr, `sent1
      ensures Tx1Valid() && Sent1() && Toggled1()
      ensures old(AddressValid()) ==> AddressValid()
      ensures reply == InReply(old(tx1Len), tx1Buf[..]) && !reply.Silent?
      ensures reply.Data? ==> reply.packet != [] && reply.packet[0] == tx1Buf[0] && reply.packet[1..] in built1
      ensures reply.Data? ==> tx1Len == USBPID_NAK && deviceAddr == newDeviceAddr << 1
      ensures !reply.Data? ==> tx1Len == old(tx1Len) && deviceAddr == old(deviceAddr) && sent1 == old(sent1)
      ensures sent1 == old(sent1) + (if reply.Data? then [reply.packet] else [])
    {
      hide Tx1Valid, Sent1, Toggled1, AddressValid, Logged;
      var cnt := tx1Len;
      if IsHandshake(cnt) { return Handshake(cnt); }
      reply := Send1(cnt);
    }

    /** The packet leaves. */
    method Send1(cnt: nat) returns (reply: Reply)
      requires Tx1Valid() && Sent1() && Toggled1() && cnt == tx1Len && !IsHandshake(cnt)
      modifies `tx1Len, `deviceAddr, `sent1
      ensures Tx1Valid() && Sent1() && Toggled1()
      ensures AddressValid() && deviceAddr == newDeviceAddr << 1 && tx1Len == USBPID_NAK
      ensures 1 <= cnt <= |tx1Buf[..]| + 1 && reply == Data(tx1Buf[..cnt - 1]) && sent1 == old(sent1) + [reply.packet]
      ensures reply.packet != [] && reply.packet[0] == tx1Buf[0] && reply.packet[1..] in built1
    {
      hide Alternate, Bodies, Subsequence, NoneEmpty;
      GoneMore(cnt, USBPID_NAK, Bodies(sent1), built1);
      AlternateMore(sent1, reset1, tx1Buf[..cnt - 1]);
      BodiesMore(sent1, tx1Buf[..cnt - 1]);
      tx1Len := USBPID_NAK;
      reply := Data(tx1Buf[..cnt - 1]);
      assert tx1Buf[..cnt - 1][1..] == tx1Buf[1..cnt - 1];
      sent1 := sent1 + [reply.packet];
      deviceAddr := newDeviceAddr << 1;
      ShiftedEven(newDeviceAddr);
    }

    /** The answer to an IN token: nothing is sent while a received packet waits. */
    ghost function Offer(endpoint: bv8): Reply
      reads `rxLen, `txLen, `tx1Len, txBuf, tx1Buf
    {
      if rxLen >= 1 then Handshake(USBPID_NAK)
      else if endpoint == 0 then InReply(txLen, txBuf[..])
      else InReply(tx1Len, tx1Buf[..])
    }

    /** handleIn. */
    method HandleIn(endpoint: bv8) returns (reply: Reply)
      requires Inside()
      modifies `txLen, `tx1Len, `deviceAddr, `sent, `sent1, `delivered
      ensures Inside() && Undisturbed()
      ensures reply == old(Offer(endpoint)) && Left(reply, endpoint)
    {
      hide TxValid, Delivery, Sent, Tx1Valid, Sent1, LockValid;
      hide Toggled1, AddressValid, Logged;
      if rxLen >= 1 { return Handshake(USBPID_NAK); }
      if endpoint != 0 {
        reply := HandleIn1();
      } else {
        reply := HandleIn0();
      }
    }

    /** The part of se0 for token packets. */
    method HandleToken(token: bv8, b1: bv8, b2: bv8) returns (reply: Reply)
      requires Inside()
      modifies `currentTok, `txLen, `tx1Len, `deviceAddr, `sent, `sent1, `delivered
      ensures Inside() && Undisturbed()
      ensures reply == if ForDevice(b1, old(deviceAddr)) && token == USBPID_IN then old(Offer(Endpoint(b1, b2)))
                       else Silent
      ensures currentTok == if !ForDevice(b1, old(deviceAddr)) then 0
                            else if token == USBPID_IN then old(currentTok) else TokenToKeep(token)
      ensures if ForDevice(b1, old(deviceAddr)) && token == USBPID_IN then Left(reply, Endpoint(b1, b2))
              else NothingLeft()
    {
      hide RxValid, TxValid, Delivery, Sent, Tx1Valid, Sent1, LockValid, Endpoint, ForDevice, Offer;
      hide Toggled1, AddressValid, Logged;
      var endpoint, other := Address(b1, b2, deviceAddr);
      if !other && token == USBPID_IN {
        reply := HandleIn(endpoint);
        return;
      }
      currentTok := if !other && (token == USBPID_SETUP || token == USBPID_OUT) then token else 0;
      return Silent;
    }

    /** se0 to doReturn: the packet of n bytes that has just been received. */
    method Se0(n: nat) returns (reply: Reply)
      requires Inside() && n <= USB_BUFSIZE
      modifies `inputBufOffset, `rxLen, `rxToken, `currentTok, `accepted
      modifies `txLen, `tx1Len, `deviceAddr, `sent, `sent1, `delivered
      ensures Shape() && Inside() && Undisturbed()
      ensures old(inputBufOffset) <= USB_BUFSIZE
      ensures var y := old(inputBufOffset);
              if IsDataToken(rxBuf[y]) then
                && reply == DataReply(old(currentTok), old(rxLen)) && currentTok == old(currentTok) && NothingLeft()
                && (if Stores(old(currentTok), old(rxLen), n) then
                      accepted == old(accepted) + [Accepted(old(currentTok), rxBuf[y..y + n])] && rxLen == n
                    else accepted == old(accepted) && rxLen == old(rxLen))
              else
                && accepted == old(accepted) && rxLen == old(rxLen)
                && (if ForDevice(rxBuf[y + 1], old(deviceAddr)) && rxBuf[y] == USBPID_IN then
                      && reply == old(Offer(Endpoint(rxBuf[y + 1], rxBuf[y + 2])))
                      && Left(reply, Endpoint(rxBuf[y + 1], rxBuf[y + 2]))
                    else reply == Silent && NothingLeft())
                && currentTok == (if !ForDevice(rxBuf[y + 1], old(deviceAddr)) then 0
                                  else if rxBuf[y] == USBPID_IN then old(currentTok) else TokenToKeep(rxBuf[y]))
    {
      hide TxValid, Delivery, Sent, Tx1Valid, Sent1, Endpoint, ForDevice, Offer, TokenToKeep;
      hide Toggled1, AddressValid, Logged;
      var y := inputBufOffset;
      var token := rxBuf[y];
      if token == DATA0 || token == DATA1 {
        reply := HandleData(n);
      } else {
        reply := HandleToken(token, rxBuf[y + 1], rxBuf[y + 2]);
      }
    }

    /** The receive loop, into the half at usbInputBufOffset. */
    method ReceiveLine(line: nat -> bv8) returns (outcome: Outcome)
      requires Inside()
      modifies rxBuf
      ensures Shape() && Inside()
      ensures inputBufOffset <= USB_BUFSIZE && rxLen <= USB_BUFSIZE && Stored() == old(Stored())
      ensures outcome == Receive165(line)
      ensures outcome.Packet? ==>
                && |outcome.bytes| <= USB_BUFSIZE && inputBufOffset + USB_BUFSIZE <= |old(rxBuf[..])|
                && rxBuf[inputBufOffset..inputBufOffset + USB_BUFSIZE]
                   == Window(old(rxBuf[..]), inputBufOffset, outcome.bytes)
    {
      hide TxValid, Tx1Valid, Sent, Sent1, Delivery, LockValid, Receive165, Window;
      hide Toggled1, AddressValid, Logged;
      var receiver := new Receiver(line, rxBuf);
      outcome := receiver.Receive(inputBufOffset);
      if outcome.Packet? { WindowReceived(old(rxBuf[..]), rxBuf[..], inputBufOffset, outcome.bytes); }
      HalfKept(old(rxBuf[..]), rxBuf[..], inputBufOffset, rxLen);
    }

    /** What a packet on the line leads to: exactly which packets are kept, and what is answered. */
    twostate predicate Responds(line: nat -> bv8, reply: Reply)
      reads `currentTok, `accepted, `rxLen, `txLen, `tx1Len, `deviceAddr, `newDeviceAddr, `sent, `sent1
    {
      && old(inputBufOffset) + USB_BUFSIZE <= |old(rxBuf[..])|
      && (Receive165(line).Overflow? ==>
            && reply == Silent && currentTok == 0 && accepted == old(accepted) && rxLen == old(rxLen) && NothingLeft())
      && (Receive165(line).Packet? ==>
            var bytes := Receive165(line).bytes;
            && |bytes| <= USB_BUFSIZE
            && Takes(bytes, Window(old(rxBuf[..]), old(inputBufOffset), bytes), reply))
    }

    /** The same for a packet, and what is in the buffer where it is shorter than three bytes. */
    twostate predicate Takes(bytes: seq<bv8>, w: seq<bv8>, reply: Reply)
      requires |w| == USB_BUFSIZE
      reads `currentTok, `accepted, `rxLen, `txLen, `tx1Len, `deviceAddr, `newDeviceAddr, `sent, `sent1
    {
      if IsDataToken(w[0]) then
        && reply == DataReply(old(currentTok), old(rxLen)) && currentTok == old(currentTok) && NothingLeft()
        && (if Stores(old(currentTok), old(rxLen), |bytes|) then
              accepted == old(accepted) + [Accepted(old(currentTok), bytes)] && rxLen == |bytes|
            else accepted == old(accepted) && rxLen == old(rxLen))
      else
        && accepted == old(accepted) && rxLen == old(rxLen)
        && (if ForDevice(w[1], old(deviceAddr)) && w[0] == USBPID_IN then
              reply == old(Offer(Endpoint(w[1], w[2]))) && Left(reply, Endpoint(w[1], w[2]))
            else reply == Silent && NothingLeft())
        && currentTok == (if !ForDevice(w[1], old(deviceAddr)) then 0
                          else if w[0] == USBPID_IN then old(currentTok) else TokenToKeep(w[0]))
    }

    /** One run of the interrupt routine, from the first data bit of the packet on the line. */
    method Interrupt(line: nat -> bv8) returns (reply: Reply)
      requires Shared()
      modifies `traffic, `inputBufOffset, `rxLen, `rxToken, `currentTok, `accepted, rxBuf
      modifies `txLen, `tx1Len, `deviceAddr, `sent, `sent1, `delivered
      ensures Shared() && Undisturbed() && traffic == old(traffic) + [Exchange(line, reply)]
      ensures old(rxLen) != 0 ==> Stored() == old(Stored())
      ensures Responds(line, reply)
    {
      hide Inside, AckedPackets, Receive165, Acknowledged, PacketsOf, Responds;
      reply := Hear(line);
      ghost var e := Exchange(line, reply);
      StoredMore(e);
      Record(e, old(accepted));
    }

    /** The packets that this one adds to the log are those that have been acknowledged. */
    twostate lemma StoredMore(e: Exchange)
      requires Responds(e.line, e.reply)
      ensures old(accepted) <= accepted
      ensures PacketsOf(accepted[|old(accepted)|..])
              == if Acknowledged(e) then [Receive165(e.line).bytes] else []
    {
      hide Receive165, Window, Acknowledged, Endpoint, ForDevice, Offer, TokenToKeep, DataReply, IsDataToken;
      match Receive165(e.line)
      case Packet(bytes) =>
        var w := Window(old(rxBuf[..]), old(inputBufOffset), bytes);
        AcknowledgedIs(e.line, e.reply, w, old(currentTok), old(rxLen));
      case Overflow =>
        NotAcknowledged(e.line, e.reply);
    }

    /** The receive loop, and se0 or overflow. */
    method Hear(line: nat -> bv8) returns (reply: Reply)
      requires Inside()
      modifies `inputBufOffset, `rxLen, `rxToken, `currentTok, `accepted, rxBuf
      modifies `txLen, `tx1Len, `deviceAddr, `sent, `sent1, `delivered
      ensures Inside() && Undisturbed() && (old(rxLen) != 0 ==> Stored() == old(Stored()))
      ensures Responds(line, reply)
    {
      hide Inside, Receive165, Window, Endpoint, ForDevice, Offer, TokenToKeep, Stores, DataReply, IsDataToken;
      var outcome := ReceiveLine(line);
      match outcome
      case Packet(bytes) =>
        reply := Process(bytes, Window(old(rxBuf[..]), inputBufOffset, bytes));
      case Overflow =>
        currentTok := 0;
        reply := Silent;
    }

    /** One more packet in the log of the bus. */
    ghost method Record(e: Exchange, was: seq<Accepted>)
      requires Inside() && AckedPackets(traffic) == PacketsOf(was) && was <= accepted
      requires PacketsOf(accepted[|was|..]) == if Acknowledged(e) then [Receive165(e.line).bytes] else []
      modifies `traffic
      ensures Shared() && traffic == old(traffic) + [e]
    {
      hide Inside, Acknowledged, AckedPackets, PacketsOf;
      assert was + accepted[|was|..] == accepted;
      AckedMore(traffic, e, was, accepted[|was|..]);
      traffic := traffic + [e];
    }

    /** se0 with the packet, and what was in the buffer before where it is shorter than three bytes. */
    method Process(bytes: seq<bv8>, ghost w: seq<bv8>) returns (reply: Reply)
      requires Shape() && Inside() && |bytes| <= USB_BUFSIZE == |w| && inputBufOffset <= USB_BUFSIZE
      requires rxBuf[inputBufOffset..inputBufOffset + USB_BUFSIZE] == w && bytes <= w
      modifies `inputBufOffset, `rxLen, `rxToken, `currentTok, `accepted
      modifies `txLen, `tx1Len, `deviceAddr, `sent, `sent1, `delivered
      ensures Shape() && Inside() && Undisturbed() && Takes(bytes, w, reply)
    {
      hide Inside, Endpoint, ForDevice, Offer, TokenToKeep, Stores, DataReply, IsDataToken;
      WindowFirst(rxBuf[..], inputBufOffset, bytes, w);
      reply := Se0(|bytes|);
    }

    /** All the packets that arrive before the main loop's next step. */
    method Interrupts()
      requires Shared()
      modifies `arrivals, `traffic, `inputBufOffset, `rxLen, `rxToken, `currentTok, `accepted, rxBuf
      modifies `txLen, `tx1Len, `deviceAddr, `sent, `sent1, `delivered
      ensures Shared() && Undisturbed() && Grown()
      ensures inputBufOffset <= USB_BUFSIZE && rxLen <= USB_BUFSIZE
      ensures old(rxLen) != 0 ==> rxLen == old(rxLen) && Stored() == old(Stored())
      ensures Shape() && Gap()
    {
      hide Shared, Polls1;
      SharedShape();
      RxFacts();
      if |arrivals| == 0 { return; }
      var lines := arrivals[0];
      arrivals := arrivals[1..];
      for i := 0 to |lines|
        invariant Shared() && Undisturbed() && old(traffic) <= traffic
        invariant inputBufOffset <= USB_BUFSIZE && rxLen <= USB_BUFSIZE
        invariant old(rxLen) != 0 ==> Stored() == old(Stored())
        invariant |traffic| == |old(traffic)| + i && arrivals == old(arrivals)[1..]
        invariant i == 0 ==> Still()
        invariant i >= 1 && old(Polled1()) ==> Left(Data(old(Waiting1())), 1)
      {
        OneInterrupt(lines[i]);
      }
    }

    /** One of them. */
    method OneInterrupt(line: nat -> bv8)
      requires Shape() && Shared() && inputBufOffset <= USB_BUFSIZE && rxLen <= USB_BUFSIZE
      modifies `traffic, `inputBufOffset, `rxLen, `rxToken, `currentTok, `accepted, rxBuf
      modifies `txLen, `tx1Len, `deviceAddr, `sent, `sent1, `delivered
      ensures Shape() && Shared() && Undisturbed() && |traffic| == |old(traffic)| + 1 && old(traffic) <= traffic
      ensures inputBufOffset <= USB_BUFSIZE && rxLen <= USB_BUFSIZE
      ensures old(rxLen) != 0 ==> Stored() == old(Stored())
      ensures old(MayLeave1()) && Polls1(line, old(deviceAddr)) ==> Left(Data(old(Waiting1())), 1)
    {
      hide Shared, Endpoint, ForDevice, TokenToKeep, Stores, DataReply, Receive165;
      WindowOfThree(rxBuf[..], inputBufOffset, line);
      var _ := Interrupt(line);
      RxFacts();
    }

    // ---- the main loop

    /** What is behind the token in usbTxBuf. */
    ghost function Rest(): (rest: seq<bv8>)
      requires Shape()
      reads txBuf
      ensures |rest| == USB_BUFSIZE - 1
    {
      txBuf[1..]
    }

    /** A SETUP with this data, and what its answer depends on. */
    ghost function Asking(setup: seq<bv8>): Request
      requires Shape()
      reads `calls, `configuration, `built, txBuf
    {
      Request(setup, calls, configuration, Rest(), |built|)
    }

    /** How far a transfer that the application supplies has come. */
    ghost function Now(): Course
      requires Shape()
      reads `calls, `msgLen, txBuf
    {
      Course(calls, msgLen, Rest())
    }

    /** The bytes that a pointer leads to. */
    ghost predicate Denotes(pointer: Pointer, source: seq<bv8>)
      reads txBuf
    {
      && Shape()
      && match pointer
         case Memory(bytes) => source <= bytes
         case TxBuffer(at) => 9 <= at && at + |source| <= USB_BUFSIZE && source == txBuf[at..at + |source|]
    }

    /** The bytes at usbMsgPtr. */
    ghost predicate Pending(source: seq<bv8>)
      reads `msgPtr, txBuf
    {
      Denotes(msgPtr, source)
    }

    /** The message being sent.  For a transfer from usbMsgPtr: the packets built so far are the first ones of the
        transfer, and what usbMsgPtr and usbMsgLen denote is the rest of the reply. */
    ghost predicate MsgValid()
      reads `msgLen, `userRw, `msgPtr, `served, `intact, `reply, `toggles, `blocks, txBuf
    {
      && Shape() && msgLen <= USB_NO_MSG && (userRw || intact)
      && (intact ==> |blocks| == toggles && Tokened(blocks))
      && (msgLen != USB_NO_MSG || userRw ==> txBuf[0] == TokenAt(toggles - 1))
      && (msgLen != USB_NO_MSG ==> userRw || served)
      && (served ==>
            && intact && !userRw && |reply| < USB_NO_MSG && toggles <= |reply| / 8 + 1
            && blocks == Packets(reply, toggles)
            && (if msgLen == USB_NO_MSG then toggles == |reply| / 8 + 1
                else toggles <= |reply| / 8 && msgLen == |reply| - 8 * toggles && Pending(reply[8 * toggles..])))
    }

    /** Every block built is a complete data packet. */
    ghost predicate BuiltValid()
      reads `built
    {
      forall p <- built :: DataPacket(p)
    }

    ghost predicate BuiltValid1()
      reads `built1
    {
      forall p <- built1 :: IsBody(p)
    }

    /** What is sent is what the last SETUP asked for, until the next. */
    ghost predicate TransferValid()
      reads `request, `processed, `served, `userRw, `reply, `configuration
    {
      && configuration == LastConfiguration(processed, initial)
      && match request
         case NoRequest => LastSetup(processed) == [] && !served && !userRw && reply == []
         case Request(setup, _, _, rest, _) =>
           && setup == LastSetup(processed) != [] && |rest| == USB_BUFSIZE - 1
           && Answered(AnswerTo(app, request))
    }

    /** The transfer that runs is the one that the answer to the SETUP asks for. */
    ghost predicate Answered(answer: Answer)
      requires request.Request? && |request.setup| == 8
      reads `request, `served, `userRw, `reply
    {
      && served == answer.Serve? && userRw == answer.UserRw?
      && reply == (if answer.Serve? then Limited(answer.bytes, request.setup) else [])
    }

    /** Nothing has been processed since the last SETUP. */
    ghost predicate Alone()
      reads `processed
    {
      processed != [] && IsSetup(processed[|processed| - 1])
    }

    /** The packets of a transfer that the application supplies are block after block of what it returns. */
    ghost predicate Supplied()
      reads `request, `processed, `userRw, `intact, `calls, `msgLen, `blocks, txBuf
    {
      && Shape()
      && (userRw && Alone() && Modest(app) ==> intact)
      && (userRw && intact && Alone() ==>
            && request.Request? && |request.setup| == 8 && |request.rest| == USB_BUFSIZE - 1
            && OnCourse(app, Start(request), |blocks|)
            && Now() == CourseAfter(app, Start(request), |blocks|)
            && blocks == AppPackets(app, Start(request), |blocks|))
    }

    /** What the logs of the transfer hold: the packets built since the last SETUP. */
    ghost predicate Counted()
      reads `request, `built, `blocks, `toggles
    {
      && |blocks| <= toggles
      && (request.Request? ==> request.begun <= |built| && built[request.begun..] == blocks)
    }

    /** The last SETUP asks for data from the host, which the application takes. */
    ghost predicate TakesData()
      reads `request, `userRw
    {
      userRw && request.Request? && |request.setup| == 8 && (request.setup[0] & 0x80) == 0
    }

    /** usbFunctionRead and usbFunctionWrite are only called in a transfer that the application has asked for.  While it
        takes data, usbFunctionRead is not called, and an empty packet is begun for each result of usbFunctionWrite that
        says that the data are complete, unless another one comes first. */
    ghost predicate DataPhase()
      reads `request, `userRw, `intact, `toggles, `msgLen, `readLens, `writeResults, `blocks
    {
      && (!userRw ==> readLens == [] && writeResults == [])
      && (TakesData() ==>
            && readLens == [] && (msgLen == USB_NO_MSG || msgLen == 0)
            && toggles + (if msgLen == 0 then 1 else 0) <= Finals(writeResults)
            && (Finals(writeResults) > 0 ==> toggles + (if msgLen == 0 then 1 else 0) >= 1)
            && (intact ==> blocks == EmptyPackets(toggles)) && (intact || 0xff in writeResults))
    }

    /** What the main loop keeps between two calls, and no packet on the bus touches. */
    ghost predicate Records()
      reads `msgLen, `userRw, `msgPtr, `served, `intact, `reply, `toggles, `blocks, `built, txBuf
      reads `request, `processed, `configuration, `calls, `readLens, `writeResults
    {
      MsgValid() && BuiltValid() && TransferValid() && Supplied() && Counted() && DataPhase()
    }

    /** Holds whenever the main loop is outside usbPoll. */
    ghost predicate Valid()
      reads this, rxBuf, txBuf, tx1Buf
    {
      Shared() && Records() && BuiltValid1() && !handled && !locked && !turned1
    }

    /** A gap in which endpoint 0 has nothing to send. */
    method Pause()
      requires Shared() && IsHandshake(txLen)
      modifies `arrivals, `traffic, `inputBufOffset, `rxLen, `rxToken, `currentTok, `accepted, rxBuf
      modifies `txLen, `tx1Len, `deviceAddr, `sent, `sent1, `delivered
      ensures Shape() && Shared() && Grown() && txLen == old(txLen)
    {
      hide Shared, Gap;
      Interrupts();
    }

    method PutByte(data: nat, c: bv8)
      requires Shape() && Shared() && IsHandshake(txLen) && data < USB_BUFSIZE
      modifies txBuf
      ensures Shape() && Shared() && txBuf[..] == old(txBuf[..])[data := c]
    {
      hide Subsequence;
      hide RxValid, Tx1Valid, Sent, Sent1, Delivery, LockValid, Toggled1, AddressValid, Logged;
      txBuf[data] := c;
    }

    /** `*data++ = c`, with the interrupt routine before and after. */
    method Put(data: nat, c: bv8)
      requires Shared() && IsHandshake(txLen) && data < USB_BUFSIZE
      modifies `arrivals, `traffic, `inputBufOffset, `rxLen, `rxToken, `currentTok, `accepted, rxBuf
      modifies `txLen, `tx1Len, `deviceAddr, `sent, `sent1, `delivered
      modifies txBuf
      ensures Shape() && Shared() && Grown() && txLen == old(txLen)
      ensures txBuf[..] == old(txBuf[..])[data := c]
    {
      hide Shared, IsHandshake;
      Pause();
      PutByte(data, c);
      Pause();
    }

    /** The first r bytes at usbMsgPtr have been copied; the rest of the buffer is as it was. */
    ghost predicate Copied(was: seq<bv8>, source: seq<bv8>, r: nat)
      reads `msgPtr, txBuf
    {
      && Pending(source) && |was| == USB_BUFSIZE && r <= 8 && r <= |source|
      && txBuf[..] == was[..1] + source[..r] + was[1 + r..]
    }

    /** The byte r places after usbMsgPtr. */
    function At(r: nat, ghost source: seq<bv8>): (c: bv8)
      requires Pending(source) && r < |source|
      reads `msgPtr, txBuf
      ensures c == source[r]
    {
      match msgPtr
      case Memory(bytes) => bytes[r]
      case TxBuffer(at) => txBuf[at + r]
    }

    method CopyByte(r: nat, ghost was: seq<bv8>, ghost source: seq<bv8>)
      requires Shared() && IsHandshake(txLen) && Copied(was, source, r) && r < 8 && r < |source|
      modifies `arrivals, `traffic, `inputBufOffset, `rxLen, `rxToken, `currentTok, `accepted, rxBuf
      modifies `txLen, `tx1Len, `deviceAddr, `sent, `sent1, `delivered
      modifies txBuf
      ensures Shared() && Grown() && txLen == old(txLen) && Copied(was, source, r + 1)
    {
      hide RxValid, TxValid, Tx1Valid, Sent, Sent1, Delivery, LockValid;
      hide Toggled1, AddressValid, Logged;
      var c := At(r, source);
      OneMoreByte(was, txBuf[..], source, r);
      Put(1 + r, c);
    }

    /** The copying loop of usbDeviceRead. */
    method CopyLoop(len: nat, ghost source: seq<bv8>)
      requires Shared() && IsHandshake(txLen) && Copied(txBuf[..], source, 0) && 1 <= len <= 8 && len <= |source|
      modifies `arrivals, `traffic, `inputBufOffset, `rxLen, `rxToken, `currentTok, `accepted, rxBuf
      modifies `txLen, `tx1Len, `deviceAddr, `sent, `sent1, `delivered
      modifies txBuf
      ensures Shared() && Grown() && txLen == old(txLen) && Copied(old(txBuf[..]), source, len)
    {
      hide Shared, Copied;
      var i, r := len, 0;
      while true
        invariant 1 <= i <= len && r == len - i
        invariant Shared() && Grown() && txLen == old(txLen) && Copied(old(txBuf[..]), source, r)
        decreases i
      {
        CopyByte(r, old(txBuf[..]), source);
        r := r + 1;
        i := i - 1;
        if i == 0 { break; }
      }
    }

    /** The branch of usbDeviceRead for data at usbMsgPtr. */
    method CopyMessage(len: nat, ghost source: seq<bv8>)
      requires Shared() && IsHandshake(txLen) && 1 <= len <= 8 && len <= |source| && Pending(source)
      modifies `arrivals, `traffic, `inputBufOffset, `rxLen, `rxToken, `currentTok, `accepted, rxBuf
      modifies `txLen, `tx1Len, `deviceAddr, `sent, `sent1, `delivered
      modifies `msgPtr, txBuf
      ensures Shared() && Grown() && txLen == old(txLen)
      ensures txBuf[..] == old(txBuf[..1]) + source[..len] + old(txBuf[1 + len..])
      ensures Pending(source[len..]) && (|source| >= 3 ==> msgPtr.Memory?)
    {
      hide RxValid, TxValid, Tx1Valid, Sent, Sent1, Delivery, LockValid;
      hide Toggled1, AddressValid, Logged;
      CopyLoop(len, source);
      msgPtr := match msgPtr case Memory(bytes) => Memory(bytes[len..]) case TxBuffer(at) => TxBuffer(at + len);
    }

    /** The branch of usbDeviceRead that lets the application write the data, up to `len` bytes. */
    method ReadFromApp(len: nat) returns (count: nat)
      requires Shared() && IsHandshake(txLen) && 1 <= len <= 8
      modifies `arrivals, `traffic, `inputBufOffset, `rxLen, `rxToken, `currentTok, `accepted, rxBuf
      modifies `txLen, `tx1Len, `deviceAddr, `sent, `sent1, `delivered
      modifies `calls, `readLens, txBuf
      ensures Shape() && Shared() && Grown() && txLen == old(txLen) && calls == old(calls) + 1
      ensures readLens == old(readLens) + [len]
      ensures txBuf[0] == old(txBuf[0]) && Rest() == AppRest(app, old(calls), len, old(Rest()))
      ensures count == app.read(old(calls), len).1 % 256
    {
      hide RxValid, TxValid, Tx1Valid, Sent, Sent1, Delivery, LockValid;
      hide Toggled1, AddressValid, Logged;
      var answer := app.read(calls, len);
      calls, readLens := calls + 1, readLens + [len];
      ghost var was, bytes := txBuf[..], Written(answer.0, len);
      var i := 0;
      while i < len && i < |answer.0|
        invariant 0 <= i <= |bytes| && Shape() && Shared() && Grown() && txLen == old(txLen) && calls == old(calls) + 1
        invariant txBuf[..] == was[..1] + bytes[..i] + was[1 + i..] && readLens == old(readLens) + [len]
      {
        OneMoreByte(was, txBuf[..], bytes, i);
        Put(1 + i, answer.0[i]);
        i := i + 1;
      }
      assert bytes[..i] == bytes;
      Behind(was, txBuf[..], bytes);
      count := answer.1 % 256;
    }

    method DeviceRead(len0: nat, ghost source: seq<bv8>) returns (len: nat)
      requires Shared() && IsHandshake(txLen) && len0 <= 8
      requires !userRw ==> len0 <= |source| && Pending(source)
      modifies `arrivals, `traffic, `inputBufOffset, `rxLen, `rxToken, `currentTok, `accepted, rxBuf
      modifies `txLen, `tx1Len, `deviceAddr, `sent, `sent1, `delivered
      modifies `msgPtr, `calls, `readLens, txBuf
      ensures Grown()
      ensures Shared() && IsHandshake(txLen) && len <= 255 && txBuf[0] == old(txBuf[0])
      ensures !userRw ==> len == len0 && Rest()[..len] == source[..len]
      ensures !userRw ==> Pending(source[len..]) && (|source| >= 3 ==> msgPtr.Memory?)
      ensures readLens == old(readLens) + AskedFor(userRw, len0)
      ensures userRw ==>
                && len == AppBlock(app, old(calls), len0, old(Rest())).0
                && Rest() == AppRest(app, old(calls), len0, old(Rest()))
                && calls == old(calls) + if len0 == 0 then 0 else 1
    {
      hide RxValid, TxValid, Tx1Valid, Sent, Sent1, Delivery, LockValid;
      hide Toggled1, AddressValid, Logged, AppRest;
      len := len0;
      NothingAsked(app, calls, Rest());
      if len > 0 {
        if userRw {
          len := ReadFromApp(len);
        } else {
          CopyMessage(len, source);
          FirstCopied(old(txBuf[..]), txBuf[..], source, len);
        }
      }
    }

    /** usbCrc16Append(&usbTxBuf[1], len): the CRC is computed from a buffer that no interrupt changes, then stored. */
    method AppendCrc(len: nat)
      requires Shared() && IsHandshake(txLen) && len <= 8
      modifies `arrivals, `traffic, `inputBufOffset, `rxLen, `rxToken, `currentTok, `accepted, rxBuf
      modifies `txLen, `tx1Len, `deviceAddr, `sent, `sent1, `delivered
      modifies txBuf
      ensures Grown()
      ensures Shared() && IsHandshake(txLen)
      ensures txBuf[..len + 3] == PacketOf(old(txBuf[0]), old(Rest())[..len])
      ensures txBuf[0] == old(txBuf[0]) && Rest() == WithCrc(old(Rest()), len)
    {
      hide RxValid, TxValid, Tx1Valid, Sent, Sent1, Delivery, LockValid, Undisturbed, CrcBytes, PacketOf;
      hide Toggled1, AddressValid, Logged, WithCrc;
      ghost var was := txBuf[..];
      var l, h := Crc(len);
      Put(1 + len, l);
      Put(2 + len, h);
      CrcStored(was, len, l, h);
      assert txBuf[..] == was[1 + len := l][2 + len := h];
    }

    method Crc(len: nat) returns (l: bv8, h: bv8)
      requires Shape() && len <= 8
      ensures [l, h] == CrcBytes(txBuf[1..1 + len])
    {
      var bytes := txBuf[..];
      var mem := (k: nat) => if k < |bytes| then bytes[k] else 0;
      var ptr;
      h, l, ptr := UsbCrc16(mem, 1, len);
      assert Slice(mem, 1, len) == bytes[1..1 + len];
      CrcBytesFrom(bytes[1..1 + len], h, l);
    }

    /** `usbTxLen = len` for a packet that is complete in the buffer: from here on it may be sent. */
    method Publish(len: nat)
      requires Shared() && IsHandshake(txLen) && 4 <= len <= 12 && !locked
      requires BuiltValid() && DataPacket(txBuf[..len - 1])
      modifies `arrivals, `traffic, `inputBufOffset, `rxLen, `rxToken, `currentTok, `accepted, rxBuf
      modifies `txLen, `tx1Len, `deviceAddr, `sent, `sent1, `delivered
      modifies `built, `blocks
      ensures Grown()
      ensures Shape() && Shared() && BuiltValid()
      ensures built == old(built) + [txBuf[..len - 1]] && blocks == old(blocks) + [txBuf[..len - 1]]
    {
      hide Shared, Gap, DataPacket, BuiltValid, Undisturbed;
      MakeReady(len);
      Interrupts();
    }

    method MakeReady(len: nat)
      requires Shared() && IsHandshake(txLen) && 4 <= len <= 12 && !locked
      requires BuiltValid() && DataPacket(txBuf[..len - 1])
      modifies `txLen, `built, `blocks
      ensures Shape() && Shared() && BuiltValid()
      ensures built == old(built) + [txBuf[..len - 1]] && blocks == old(blocks) + [txBuf[..len - 1]]
    {
      hide DataPacket, RxValid, LockValid, Tx1Valid, Sent1, Toggled1, AddressValid, Logged, Subsequence;
      built := built + [txBuf[..len - 1]];
      blocks := blocks + [txBuf[..len - 1]];
      txLen := len;
    }

    /** usbBuildTxBlock up to the call of usbDeviceRead. */
    method BeginBlock(ghost source: seq<bv8>) returns (wantLen: nat)
      requires Shared() && IsHandshake(txLen) && msgLen < USB_NO_MSG && txBuf[0] == TokenAt(toggles - 1)
      requires !userRw ==> Pending(source)
      modifies `arrivals, `traffic, `inputBufOffset, `rxLen, `rxToken, `currentTok, `accepted, rxBuf
      modifies `txLen, `tx1Len, `deviceAddr, `sent, `sent1, `delivered
      modifies `msgLen, `toggles, txBuf
      ensures Grown()
      ensures Shared() && IsHandshake(txLen)
      ensures wantLen == Wanted(old(msgLen)) && msgLen == old(msgLen) - wantLen
      ensures toggles == old(toggles) + 1 && txBuf[0] == TokenAt(toggles - 1) && Rest() == old(Rest())
      ensures !userRw ==> Pending(source)
    {
      hide RxValid, TxValid, Tx1Valid, Sent, Sent1, Delivery, LockValid;
      hide Toggled1, AddressValid, Logged;
      wantLen := msgLen;
      if wantLen > 8 { wantLen := 8; }
      msgLen := msgLen - wantLen;
      ToggleToken(toggles);
      Put(0, txBuf[0] ^ (DATA0 ^ DATA1));
      toggles := toggles + 1;
    }

    ghost predicate InMemory(source: seq<bv8>)
      reads `msgPtr
    {
      msgPtr.Memory? && source <= msgPtr.bytes
    }

    /** The end of usbTxBuf is too short for eight bytes. */
    lemma MemoryPending(source: seq<bv8>)
      requires Shape()
      ensures InMemory(source) ==> Pending(source)
      ensures Pending(source) && msgPtr.Memory? ==> InMemory(source)
    {
    }

    /** Between filling the buffer and adding the CRC: the next chunk is in place, and usbMsgPtr is behind it. */
    ghost predicate Filled(len: nat)
      reads `msgLen, `userRw, `msgPtr, `served, `intact, `reply, `toggles, `blocks, txBuf
    {
      && Shape() && toggles >= 1 && len <= 255 && txBuf[0] == TokenAt(toggles - 1)
      && (userRw || (served && intact)) && msgLen <= USB_NO_MSG
      && (intact ==> |blocks| == toggles - 1 && Tokened(blocks))
      && (served ==>
            && intact && !userRw && |reply| < USB_NO_MSG && toggles - 1 <= |reply| / 8
            && blocks == Packets(reply, toggles - 1)
            && len == |Chunk(reply, toggles - 1)| && Rest()[..len] == Chunk(reply, toggles - 1)
            && (len == 8 ==> msgLen == |reply| - 8 * toggles && InMemory(reply[8 * toggles..])))
    }

    lemma FilledMeans(len: nat)
      requires Filled(len)
      ensures Shape() && txBuf[0] == TokenAt(toggles - 1) && toggles >= 1 && (userRw || served)
      ensures served ==>
                && !userRw && toggles - 1 <= |reply| / 8 && len <= 8 && Rest()[..len] == Chunk(reply, toggles - 1)
    {
      hide TokenAt, Packets, Tokened, InMemory;
    }

    /** The token and the data of the next block. */
    method ReadBlock(ghost source: seq<bv8>) returns (len: nat)
      requires Shared() && IsHandshake(txLen) && msgLen < USB_NO_MSG && txBuf[0] == TokenAt(toggles - 1)
      requires !userRw ==> Pending(source) && msgLen <= |source|
      modifies `arrivals, `traffic, `inputBufOffset, `rxLen, `rxToken, `currentTok, `accepted, rxBuf
      modifies `txLen, `tx1Len, `deviceAddr, `sent, `sent1, `delivered
      modifies `msgLen, `toggles, `msgPtr, `calls, `readLens, txBuf
      ensures Grown() && Shared() && IsHandshake(txLen) && len <= 255
      ensures toggles == old(toggles) + 1 && txBuf[0] == TokenAt(toggles - 1)
      ensures msgLen == old(msgLen) - Wanted(old(msgLen))
      ensures readLens == old(readLens) + AskedFor(userRw, Wanted(old(msgLen)))
      ensures !userRw ==>
                && len == Wanted(old(msgLen)) && Rest()[..len] == source[..len]
                && Pending(source[len..]) && (|source| >= 3 ==> msgPtr.Memory?)
      ensures userRw ==>
                && len == AppBlock(app, old(calls), Wanted(old(msgLen)), old(Rest())).0
                && Rest() == AppRest(app, old(calls), Wanted(old(msgLen)), old(Rest()))
                && calls == old(calls) + if Wanted(old(msgLen)) == 0 then 0 else 1
    {
      hide Shared, TokenAt, Pending, AppBlock, AppRest, AskedFor, IsHandshake;
      SharedShape();
      var wantLen := BeginBlock(source);
      len := DeviceRead(wantLen, source);
    }

    /** The first half of usbBuildTxBlock. */
    method FillBlock() returns (len: nat)
      requires Shared() && MsgValid() && IsHandshake(txLen) && msgLen != USB_NO_MSG
      modifies `arrivals, `traffic, `inputBufOffset, `rxLen, `rxToken, `currentTok, `accepted, rxBuf
      modifies `txLen, `tx1Len, `deviceAddr, `sent, `sent1, `delivered
      modifies `msgLen, `toggles, `msgPtr, `calls, `readLens, txBuf
      ensures Grown()
      ensures Shared() && IsHandshake(txLen)
      ensures Filled(len) && toggles == old(toggles) + 1 && old(msgLen) < USB_NO_MSG
      ensures userRw ==> FilledByApp(old(Now()), len)
      ensures readLens == old(readLens) + AskedFor(userRw, Wanted(old(msgLen)))
    {
      hide Shared, MsgValid, Packets, TokenAt, Pending, InMemory, Tokened, AppBlock, AppRest, Filled, FilledByApp;
      hide AskedFor, IsHandshake;
      ghost var source := Unsent();
      len := ReadBlock(source);
      BlockFilled(len, source);
      if userRw { AppBlockFilled(old(Now()), len); }
    }

    /** What is left of the message. */
    lemma Unsent() returns (source: seq<bv8>)
      requires MsgValid() && msgLen != USB_NO_MSG
      ensures Shape() && msgLen < USB_NO_MSG && txBuf[0] == TokenAt(toggles - 1) && (userRw || (served && intact))
      ensures intact ==> |blocks| == toggles && Tokened(blocks)
      ensures !userRw ==> Pending(source) && msgLen <= |source|
      ensures served ==>
                && !userRw && |reply| < USB_NO_MSG && toggles <= |reply| / 8 && blocks == Packets(reply, toggles)
                && source == reply[8 * toggles..] && msgLen == |source|
    {
      hide Packets, TokenAt, Pending, Tokened;
      source := if userRw then [] else reply[8 * toggles..];
    }

    /** The next block of the application is in place. */
    ghost predicate FilledByApp(was: Course, len: nat)
      requires Shape() && Proper(was)
      reads `calls, `msgLen, txBuf
    {
      && len == NextBlock(app, was).0
      && (len <= 8 ==>
            && NextBlock(app, was).1 == Rest()[..len]
            && NextCourse(app, was)
               == Course(calls, if len < 8 then USB_NO_MSG else msgLen, WithCrc(Rest(), len)))
    }

    lemma AppBlockFilled(was: Course, len: nat)
      requires Shape() && Proper(was) && was.left < USB_NO_MSG
      requires len == NextBlock(app, was).0 && msgLen == was.left - Wanted(was.left)
      requires calls == was.calls + (if was.left == 0 then 0 else 1)
      requires Rest() == AppRest(app, was.calls, Wanted(was.left), was.rest)
      ensures FilledByApp(was, len)
    {
      hide NextBlock, NextCourse, WithCrc, AppRest;
      if len <= 8 { CourseGoesOn(app, was, len); }
    }

    /** The chunk that has been read is the next one. */
    lemma BlockFilled(len: nat, source: seq<bv8>)
      requires Shape() && toggles >= 1 && len <= 255 && txBuf[0] == TokenAt(toggles - 1)
      requires (userRw || (served && intact)) && msgLen <= USB_NO_MSG
      requires intact ==> |blocks| == toggles - 1 && Tokened(blocks)
      requires served ==>
                 && intact && !userRw && |reply| < USB_NO_MSG && toggles - 1 <= |reply| / 8
                 && blocks == Packets(reply, toggles - 1) && source == reply[8 * (toggles - 1)..]
                 && len == (if |source| > 8 then 8 else |source|) && msgLen == |source| - len
                 && Rest()[..len] == source[..len] && Pending(source[len..])
                 && (|source| >= 3 ==> msgPtr.Memory?)
      ensures Filled(len)
    {
      hide Packets, TokenAt, Pending, InMemory, Tokened;
      if served {
        NextChunk(reply, toggles - 1, source, len);
        if len == 8 { MemoryPending(source[len..]); }
      }
    }

    method FinishMessage(len: nat)
      requires Shared() && IsHandshake(txLen) && len <= 8
      modifies `arrivals, `traffic, `inputBufOffset, `rxLen, `rxToken, `currentTok, `accepted, rxBuf
      modifies `txLen, `tx1Len, `deviceAddr, `sent, `sent1, `delivered
      modifies `msgLen
      ensures Grown()
      ensures Shared() && IsHandshake(txLen)
      ensures msgLen == if len < 8 then USB_NO_MSG else old(msgLen)
    {
      if len + 4 < 12 {
        msgLen := USB_NO_MSG;
        Pause();
      }
    }

    /** CRC and end of message. */
    method CloseBlock(len: nat)
      requires Shared() && IsHandshake(txLen) && len <= 8
      modifies `arrivals, `traffic, `inputBufOffset, `rxLen, `rxToken, `currentTok, `accepted, rxBuf
      modifies `txLen, `tx1Len, `deviceAddr, `sent, `sent1, `delivered
      modifies `msgLen, txBuf
      ensures Grown()
      ensures Shared() && IsHandshake(txLen)
      ensures txBuf[..len + 3] == PacketOf(old(txBuf[0]), old(Rest())[..len]) && txBuf[0] == old(txBuf[0])
      ensures msgLen == (if len < 8 then USB_NO_MSG else old(msgLen)) && Rest() == WithCrc(old(Rest()), len)
    {
      hide RxValid, TxValid, Tx1Valid, Sent, Sent1, Delivery, LockValid, PacketOf, Undisturbed;
      hide Toggled1, AddressValid, Logged, WithCrc;
      AppendCrc(len);
      FinishMessage(len);
    }

    /** The second half of usbBuildTxBlock, if the data fit. */
    method FinishBlock(len: nat)
      requires Shared() && BuiltValid() && !locked && IsHandshake(txLen) && Filled(len) && len <= 8
      modifies `arrivals, `traffic, `inputBufOffset, `rxLen, `rxToken, `currentTok, `accepted, rxBuf
      modifies `txLen, `tx1Len, `deviceAddr, `sent, `sent1, `delivered
      modifies `msgLen, `built, `blocks, txBuf
      ensures Grown()
      ensures Shared() && MsgValid() && BuiltValid()
      ensures var packet := PacketOf(old(txBuf[0]), old(Rest())[..len]);
              built == old(built) + [packet] && blocks == old(blocks) + [packet]
      ensures msgLen == (if len < 8 then USB_NO_MSG else old(msgLen)) && Rest() == WithCrc(old(Rest()), len)
    {
      hide RxValid, TxValid, Tx1Valid, Sent, Sent1, Delivery, LockValid, PacketOf, TokenAt, Packets, DataPacket,
           Pending, InMemory, BuiltValid, MsgValid, Undisturbed;
      hide Toggled1, AddressValid, Logged, WithCrc;
      if served { PacketsGrow(reply, toggles); }
      NewPacket(toggles - 1, Rest()[..len]);
      CloseBlock(len);
      Publish(len + 4);
      BlockDone(len);
    }

    /** With the block published, the message is one packet further. */
    lemma BlockDone(len: nat)
      requires Shape() && toggles >= 1 && len <= 8 && txBuf[0] == TokenAt(toggles - 1)
      requires userRw || (served && intact)
      requires msgLen <= USB_NO_MSG && (len < 8 ==> msgLen == USB_NO_MSG)
      requires intact ==> |blocks| == toggles && Tokened(blocks)
      requires served ==>
                 && intact && !userRw && |reply| < USB_NO_MSG && toggles - 1 <= |reply| / 8
                 && blocks == Packets(reply, toggles)
                 && len == |Chunk(reply, toggles - 1)|
                 && (len == 8 ==> msgLen == |reply| - 8 * toggles && InMemory(reply[8 * toggles..]))
      ensures MsgValid()
    {
      hide Packets, TokenAt, InMemory, Pending, Tokened;
      if served && len == 8 { MemoryPending(reply[8 * toggles..]); }
    }

    method StallBlock()
      requires Shape() && Shared() && userRw && !served && IsHandshake(txLen) && txBuf[0] == TokenAt(toggles - 1)
      modifies `arrivals, `traffic, `inputBufOffset, `rxLen, `rxToken, `currentTok, `accepted, rxBuf
      modifies `txLen, `tx1Len, `deviceAddr, `sent, `sent1, `delivered
      modifies `msgLen, `intact
      ensures Grown()
      ensures Shared() && MsgValid() && txLen == USBPID_STALL && msgLen == USB_NO_MSG && !intact
    {
      hide Shared, MsgValid, TokenAt;
      msgLen := USB_NO_MSG;
      Pause();
      StallTx();
      Pause();
      UserMessageValid();
    }

    /** A packet that waits to be sent is withdrawn. */
    method StallTx()
      requires Shared() && !served && userRw
      modifies `txLen, `intact
      ensures Shared() && txLen == USBPID_STALL && !intact && (old(MsgValid()) ==> MsgValid())
    {
      hide Subsequence;
      hide RxValid, Tx1Valid, Sent1, Toggled1, AddressValid, Logged, TokenAt, Packets, Pending;
      GoneMore(txLen, USBPID_STALL, sent, built);
      intact := false;
      txLen := USBPID_STALL;
    }

    lemma UserMessageValid()
      requires Shape() && userRw && !served && !intact && msgLen <= USB_NO_MSG && txBuf[0] == TokenAt(toggles - 1)
      ensures MsgValid()
    {
    }

    /** usbBuildTxBlock: one more complete packet, the next of the transfer or what the application supplies, or a stall
        that the application asks for. */
    method BuildTxBlock()
      requires Shared() && MsgValid() && BuiltValid() && !locked && IsHandshake(txLen) && msgLen != USB_NO_MSG
      modifies `arrivals, `traffic, `inputBufOffset, `rxLen, `rxToken, `currentTok, `accepted, rxBuf
      modifies `txLen, `tx1Len, `deviceAddr, `sent, `sent1, `delivered
      modifies `msgLen, `toggles, `msgPtr, `calls, `readLens, `built, `blocks, `intact, txBuf
      ensures Grown()
      ensures Shared() && MsgValid() && BuiltValid()
      ensures toggles == old(toggles) + 1 >= 1 && old(built) <= built
      ensures old(blocks) <= blocks && |blocks| <= |old(blocks)| + 1 && built == old(built) + blocks[|old(blocks)|..]
      ensures readLens == old(readLens) + AskedFor(userRw, Wanted(old(msgLen)))
      ensures served ==>
                && toggles - 1 <= |reply| / 8
                && built == old(built) + [PacketOf(TokenAt(toggles - 1), Chunk(reply, toggles - 1))]
      ensures userRw ==>
                var block := NextBlock(app, old(Now()));
                if block.0 <= 8 then
                  var packet := PacketOf(TokenAt(toggles - 1), block.1);
                  && built == old(built) + [packet] && blocks == old(blocks) + [packet]
                  && Now() == NextCourse(app, old(Now())) && intact == old(intact)
                else built == old(built) && txLen == USBPID_STALL && msgLen == USB_NO_MSG && !intact
    {
      hide Shared, MsgValid, BuiltValid, Packets, PacketOf, TokenAt, AppRest, WithCrc, NextBlock, NextCourse;
      hide IsHandshake, Filled, Chunk, AskedFor, Wanted;
      var len := FillBlock();
      FilledMeans(len);
      if len <= 8 {
        FinishBlock(len);
      } else {
        StallBlock();
      }
    }

    // ---- received packets

    /** While a stored packet waits, neither it nor anything that is to be sent changes behind the main loop's back. */
    twostate predicate Held()
      reads this
    {
      && rxLen == old(rxLen) && rxToken == old(rxToken) && inputBufOffset == old(inputBufOffset)
      && txLen == old(txLen) && accepted == old(accepted) && sent == old(sent) && delivered == old(delivered)
      && sent1 == old(sent1) && old(traffic) <= traffic
    }

    /** The toggle of endpoint 1 is reset, or nothing happens to it. */
    twostate predicate Toggle1(resets: bool)
      requires Shape()
      reads `reset1, tx1Buf
    {
      && tx1Buf[..] == (if resets then old(tx1Buf[..])[0 := DATA1] else old(tx1Buf[..]))
      && reset1 == (if resets then |old(sent1)| else old(reset1))
    }

    ghost function State(): (s: Settings)
      requires Shape()
      reads `request, `calls, `configuration, `newDeviceAddr, `built, `reset1, txBuf, tx1Buf
      reads `userRw, `msgLen, `toggles, `intact, `readLens, `writeResults
      ensures |s.buffer1| == USB_BUFSIZE
    {
      Settings(request, calls, configuration, newDeviceAddr, Rest(), |built|, reset1, tx1Buf[..], userRw, msgLen,
               toggles, intact, readLens, writeResults)
    }

    /** What the processing of a packet leads to: a SETUP begins a transfer, and standard requests set what they are
        meant to set.  Of the packets sent on endpoint 1, at least n came before. */
    ghost predicate Follows(was: Settings, n: nat, a: Accepted)
      requires Shape() && |was.buffer1| == USB_BUFSIZE && 3 <= |a.packet|
      reads `request, `configuration, `reset1, `writeResults, tx1Buf
    {
      && request == (if IsSetup(a) then Request(a.packet[1..9], was.calls, was.configuration, was.rest, was.begun)
                     else was.request)
      && configuration == (if Standard(a, 9) then a.packet[3] else was.configuration)
      && tx1Buf[..] == (if ResetsToggle(a) then was.buffer1[0 := DATA1] else was.buffer1)
      && (if ResetsToggle(a) then n <= reset1 else reset1 == was.reset1)
      && writeResults == (if IsSetup(a) then [] else was.writeResults + Writes(was.userRw, was.calls, a))
    }

    /** And what it leads to until the next block is built, or the bus is reset. */
    ghost predicate Proceeds(was: Settings, a: Accepted)
      requires 3 <= |a.packet|
      reads `newDeviceAddr, `intact, `toggles, `readLens, `msgLen
    {
      && newDeviceAddr == (if Standard(a, 5) then a.packet[3] else was.newDeviceAddr)
      && intact == (IsSetup(a) || (was.intact && !Refuses(was.userRw, was.calls, a)))
      && toggles == (if IsSetup(a) then 0 else was.toggles)
      && readLens == (if IsSetup(a) then [] else was.readLens)
      && (!IsSetup(a) ==> msgLen == Remaining(was.userRw, was.calls, a, was.left))
    }

    twostate lemma SetupFollows(packet: seq<bv8>)
      requires Shape() && |packet| == 11 && request == old(Asking(packet[1..9])) && writeResults == []
      requires configuration == if Standard(Accepted(USBPID_SETUP, packet), 9) then packet[3] else old(configuration)
      requires Toggle1(ResetsToggle(Accepted(USBPID_SETUP, packet)))
      ensures Follows(old(State()), |old(sent1)|, Accepted(USBPID_SETUP, packet))
    {
      hide Standard;
    }

    twostate lemma FollowsFacts(a: Accepted)
      requires Shape() && 3 <= |a.packet| && Follows(old(State()), |old(sent1)|, a)
      ensures if IsSetup(a) then request.Request? && request.setup == a.packet[1..9]
              else request == old(request) && old(writeResults) <= writeResults
      ensures !ResetsToggle(a) ==> reset1 == old(reset1)
    {
      hide Writes, Standard, IsSetup;
    }

    twostate lemma ProceedsFacts(a: Accepted)
      requires Shape() && 3 <= |a.packet| && Proceeds(old(State()), a)
      ensures newDeviceAddr == if Standard(a, 5) then a.packet[3] else old(newDeviceAddr)
      ensures if IsSetup(a) then toggles == 0 && intact
              else
                && toggles == old(toggles) && readLens == old(readLens)
                && msgLen == Remaining(old(userRw), old(calls), a, old(msgLen))
    {
      hide Remaining, Refuses, Standard, IsSetup;
    }

    twostate lemma SameState()
      requires Shape() && State() == old(State())
      ensures request == old(request) && msgLen == old(msgLen) && toggles == old(toggles) && intact == old(intact)
      ensures configuration == old(configuration) && newDeviceAddr == old(newDeviceAddr) && reset1 == old(reset1)
      ensures readLens == old(readLens) && writeResults == old(writeResults) && tx1Buf[..] == old(tx1Buf[..])
      ensures Now() == old(Now()) && userRw == old(userRw)
    {
    }

    lemma FollowsSince(was: Settings, n: nat, m: nat, a: Accepted)
      requires Shape() && |was.buffer1| == USB_BUFSIZE && 3 <= |a.packet| && m <= n && Follows(was, n, a)
      ensures Follows(was, m, a)
    {
    }

    /** A stored packet with the given contents. */
    ghost predicate Holding(packet: seq<bv8>)
      reads `inputBufOffset, `rxLen, `rxToken, `handled, `accepted, `processed, rxBuf
      reads `locked, `txLen, `built, `intact, `delivered, `blocks, `sent, txBuf
      reads `tx1Len, `built1, `sent1, `reset1, `turned1, `early, `deviceAddr, tx1Buf, `traffic
    {
      Shared() && rxLen != 0 && Stored() == packet
    }

    lemma HoldingShape(packet: seq<bv8>)
      requires Holding(packet)
      ensures Shape()
    {
    }

    lemma HoldingStored(packet: seq<bv8>)
      requires Holding(packet)
      ensures Shape() && inputBufOffset <= USB_BUFSIZE && rxLen <= USB_BUFSIZE && |packet| == rxLen
      ensures packet == rxBuf[USB_BUFSIZE - inputBufOffset..USB_BUFSIZE - inputBufOffset + rxLen]
    {
    }

    method Wait(ghost packet: seq<bv8>)
      requires Holding(packet)
      modifies `arrivals, `traffic, `inputBufOffset, `rxLen, `rxToken, `currentTok, `accepted, rxBuf
      modifies `txLen, `tx1Len, `deviceAddr, `sent, `sent1, `delivered
      ensures Shape() && Holding(packet) && Held()
    {
      hide Gap;
      Interrupts();
    }

    method PutScratch(data: nat, c: bv8, ghost packet: seq<bv8>)
      requires Holding(packet) && IsHandshake(txLen) && data < USB_BUFSIZE
      modifies `arrivals, `traffic, `inputBufOffset, `rxLen, `rxToken, `currentTok, `accepted, rxBuf
      modifies `txLen, `tx1Len, `deviceAddr, `sent, `sent1, `delivered
      modifies txBuf
      ensures Shape() && Holding(packet) && Held()
      ensures txBuf[..] == old(txBuf[..])[data := c]
    {
      hide Holding, IsHandshake;
      HoldingShape(packet);
      Wait(packet);
      Scratch(data, c, packet);
      Wait(packet);
    }

    method Scratch(data: nat, c: bv8, ghost packet: seq<bv8>)
      requires Shape() && Holding(packet) && IsHandshake(txLen) && data < USB_BUFSIZE
      modifies txBuf
      ensures Shape() && Holding(packet) && txBuf[..] == old(txBuf[..])[data := c]
    {
      hide Subsequence;
      hide Tx1Valid, Sent, Sent1, Delivery, LockValid, Toggled1, AddressValid, Logged;
      txBuf[data] := c;
    }

    /** Byte i of a stored packet, read through a pointer to its data field. */
    method Field(p: nat, i: nat, ghost packet: seq<bv8>) returns (b: bv8)
      requires Holding(packet) && p == USB_BUFSIZE + 1 - inputBufOffset && i + 1 < rxLen
      ensures Shape() && 0 <= i + 1 < |packet| && b == packet[i + 1]
    {
      hide Holding;
      HoldingStored(packet);
      b := rxBuf[p + i];
    }

    /** The whole data field. */
    method Fields(p: nat, n: nat, ghost packet: seq<bv8>) returns (data: seq<bv8>)
      requires Holding(packet) && p == USB_BUFSIZE + 1 - inputBufOffset && n + 1 <= rxLen
      ensures n + 1 <= |packet| && data == packet[1..1 + n]
    {
      hide Holding;
      HoldingStored(packet);
      SliceOfSlice(rxBuf[..], p - 1, rxLen, n);
      data := rxBuf[p..p + n];
    }

    /** The cases of usbDriverSetup; `request` and `value` come from the packet. */
    method DriverRequest(p: nat, request: bv8, value: bv8, ghost packet: seq<bv8>) returns (len: nat, dataPtr: Pointer)
      requires Holding(packet) && IsHandshake(txLen) && rxLen == |packet| == 11 && p == USB_BUFSIZE + 1 - inputBufOffset
      requires request == packet[1..9][1] && value == packet[3]
      modifies `arrivals, `traffic, `inputBufOffset, `rxLen, `rxToken, `currentTok, `accepted, rxBuf
      modifies `txLen, `tx1Len, `deviceAddr, `sent, `sent1, `delivered
      modifies `newDeviceAddr, `configuration, `reset1, txBuf, tx1Buf
      ensures Holding(packet) && Held() && txBuf[0] == old(txBuf[0])
      ensures var reply := StandardReply(app, old(configuration), packet[1..9]);
              len == |reply| && Denotes(dataPtr, reply)
      ensures newDeviceAddr == if request == 5 then value else old(newDeviceAddr)
      ensures configuration == if request == 9 then value else old(configuration)
      ensures Toggle1(request == 11)
    {
      hide Holding;
      len := 0;
      dataPtr := TxBuffer(9);
      PutScratch(9, 0, packet);
      if request == 0 {
        PutScratch(10, 0, packet);
        len := 2;
      } else if request == 6 {
        var setup := Fields(p, 8, packet);
        var descriptor := app.descriptor(setup);
        dataPtr := Memory(descriptor);
        len := |descriptor|;
      } else if request == 8 {
        dataPtr := Memory([configuration]);
        len := 1;
      } else if request == 10 {
        len := 1;
      } else {
        SetRequest(request, value, packet);
      }
      assert dataPtr.TxBuffer? ==> txBuf[9..9 + len] == StandardReply(app, old(configuration), packet[1..9]);
    }

    /** The cases that set something. */
    method SetRequest(request: bv8, value: bv8, ghost packet: seq<bv8>)
      requires Holding(packet)
      modifies `newDeviceAddr, `configuration, `reset1, tx1Buf
      ensures Holding(packet) && Toggle1(request == 11)
      ensures newDeviceAddr == if request == 5 then value else old(newDeviceAddr)
      ensures configuration == if request == 9 then value else old(configuration)
    {
      hide Holding;
      if request == 5 {
        newDeviceAddr := value;
      } else if request == 9 {
        configuration := value;
      } else if request == 11 {
        ResetDataToggling(packet);
      }
    }

    /** bRequest and the low byte of wValue. */
    method RequestFields(p: nat, ghost packet: seq<bv8>) returns (request: bv8, value: bv8)
      requires Holding(packet) && rxLen == |packet| == 11 && p == USB_BUFSIZE + 1 - inputBufOffset
      ensures request == packet[1..9][1] && value == packet[3]
    {
      hide Holding;
      value := Field(p, 2, packet);
      request := Field(p, 1, packet);
    }

    /** usbDriverSetup: the data field of the SETUP packet starts at p. */
    method DriverSetup(p: nat, ghost packet: seq<bv8>) returns (len: nat)
      requires Holding(packet) && IsHandshake(txLen) && rxLen == |packet| == 11 && p == USB_BUFSIZE + 1 - inputBufOffset
      modifies `arrivals, `traffic, `inputBufOffset, `rxLen, `rxToken, `currentTok, `accepted, rxBuf
      modifies `txLen, `tx1Len, `deviceAddr, `sent, `sent1, `delivered
      modifies `newDeviceAddr, `configuration, `msgPtr, `reset1, txBuf, tx1Buf
      ensures Holding(packet) && Held() && txBuf[0] == old(txBuf[0])
      ensures var reply := StandardReply(app, old(configuration), packet[1..9]); len == |reply| && Pending(reply)
      ensures newDeviceAddr == if packet[2] == 5 then packet[3] else old(newDeviceAddr)
      ensures configuration == if packet[2] == 9 then packet[3] else old(configuration)
      ensures Toggle1(packet[2] == 11)
    {
      hide Holding, StandardReply, Denotes, Stored;
      var request, value := RequestFields(p, packet);
      var dataPtr;
      len, dataPtr := DriverRequest(p, request, value, packet);
      Wait(packet);
      msgPtr := dataPtr;
      Wait(packet);
    }

    /** usbResetDataToggling, for endpoint 1. */
    method ResetDataToggling(ghost packet: seq<bv8>)
      requires Holding(packet)
      modifies `reset1, tx1Buf
      ensures Holding(packet) && tx1Buf[..] == old(tx1Buf[..])[0 := DATA1] && reset1 == |sent1|
    {
      hide RxValid, TxValid, Sent, Sent1, Delivery, LockValid, AddressValid;
      ghost var was := tx1Buf[..];
      tx1Buf[0] := DATA1;
      assert tx1Buf[..] == was[0 := DATA1];
      reset1 := |sent1|;
    }

    /** The token is rewritten before usbTxLen is reset; nothing can be sent in between because a packet is stored. */
    method ResetToken(ghost packet: seq<bv8>)
      requires Holding(packet)
      modifies `arrivals, `traffic, `inputBufOffset, `rxLen, `rxToken, `currentTok, `accepted, rxBuf
      modifies `txLen, `tx1Len, `deviceAddr, `sent, `sent1, `delivered
      modifies `served, `intact, `locked, txBuf
      ensures Holding(packet) && Held() && locked && !served && !intact && txBuf[0] == TokenAt(-1)
      ensures Rest() == old(Rest())
    {
      hide RxValid, Tx1Valid, Sent, Sent1;
      hide Toggled1, AddressValid, Logged;
      served, intact, locked := false, false, true;
      txBuf[0] := DATA0;
      Wait(packet);
    }

    /** The start of SETUP processing: a packet that has not been sent yet is dropped, and the next token is DATA1. */
    method AbortTransfer(ghost packet: seq<bv8>)
      requires Holding(packet)
      modifies `arrivals, `traffic, `inputBufOffset, `rxLen, `rxToken, `currentTok, `accepted, rxBuf
      modifies `txLen, `tx1Len, `deviceAddr, `sent, `sent1, `delivered
      modifies `served, `intact, `locked, `blocks, `toggles, txBuf
      ensures Holding(packet) && IsHandshake(txLen) && !locked && !served && intact && blocks == [] && toggles == 0
      ensures txBuf[0] == TokenAt(toggles - 1) && Rest() == old(Rest())
      ensures rxLen == old(rxLen) && rxToken == old(rxToken) && inputBufOffset == old(inputBufOffset)
      ensures old(traffic) <= traffic && accepted == old(accepted)
      ensures sent == old(sent) && sent1 == old(sent1) && delivered == []
    {
      hide Holding, TokenAt;
      ResetToken(packet);
      DropPacket(packet);
      Wait(packet);
    }

    /** `usbTxLen = USBPID_NAK`: the packet in the buffer, if any, is lost. */
    method DropPacket(ghost packet: seq<bv8>)
      requires Holding(packet) && locked && !served && !intact && txBuf[0] == TokenAt(-1)
      modifies `txLen, `locked, `intact, `blocks, `delivered, `toggles
      ensures Holding(packet) && IsHandshake(txLen) && !locked && intact && blocks == delivered == [] && toggles == 0
    {
      hide RxValid, Tx1Valid, Sent1, Toggled1, AddressValid, Logged, TokenAt, Subsequence, Gone, Stored;
      GoneMore(txLen, USBPID_NAK, sent, built);
      txLen := USBPID_NAK;
      locked, intact, blocks, delivered, toggles := false, true, [], [], 0;
    }

    /** The reply of the application or of the driver. */
    method AskReply(p: nat, ghost packet: seq<bv8>) returns (replyLen: nat, ghost answer: Answer)
      requires Holding(packet) && IsHandshake(txLen) && rxLen == |packet| == 11 && p == USB_BUFSIZE + 1 - inputBufOffset
      modifies `arrivals, `traffic, `inputBufOffset, `rxLen, `rxToken, `currentTok, `accepted, rxBuf
      modifies `txLen, `tx1Len, `deviceAddr, `sent, `sent1, `delivered
      modifies `newDeviceAddr, `configuration, `msgPtr, `calls, `reset1, txBuf, tx1Buf
      ensures Holding(packet) && Held() && txBuf[0] == old(txBuf[0])
      ensures answer == SetupReply(app, old(calls), old(configuration), packet[1..9])
      ensures answer.Serve? ==> replyLen == |answer.bytes| && Pending(answer.bytes)
      ensures answer.UserRw? ==> replyLen == USB_NO_MSG && calls == old(calls) + 1 && txBuf[..] == old(txBuf[..])
      ensures var a := Accepted(USBPID_SETUP, packet);
              && newDeviceAddr == (if Standard(a, 5) then packet[3] else old(newDeviceAddr))
              && configuration == (if Standard(a, 9) then packet[3] else old(configuration))
              && Toggle1(ResetsToggle(a))
    {
      hide Holding, StandardReply, Denotes, Pending, IsHandshake;
      HoldingShape(packet);
      var bmRequestType := Field(p, 0, packet);
      assert bmRequestType == packet[1..9][0];
      if (bmRequestType & 0x60) != 0 {
        replyLen, answer := AskApp(p, packet);
      } else {
        answer := Serve(StandardReply(app, configuration, packet[1..9]));
        replyLen := DriverSetup(p, packet);
      }
    }

    /** usbFunctionSetup. */
    method AskApp(p: nat, ghost packet: seq<bv8>) returns (replyLen: nat, ghost answer: Answer)
      requires Holding(packet) && rxLen == |packet| == 11 && p == USB_BUFSIZE + 1 - inputBufOffset
      modifies `arrivals, `traffic, `inputBufOffset, `rxLen, `rxToken, `currentTok, `accepted, rxBuf
      modifies `txLen, `tx1Len, `deviceAddr, `sent, `sent1, `delivered
      modifies `msgPtr, `calls
      ensures Holding(packet) && Held() && calls == old(calls) + 1 && answer == app.setup(old(calls), packet[1..9])
      ensures answer.Serve? ==> replyLen == |answer.bytes| && Pending(answer.bytes)
      ensures answer.UserRw? ==> replyLen == USB_NO_MSG
      ensures txBuf[..] == old(txBuf[..]) && tx1Buf[..] == old(tx1Buf[..])
    {
      hide Holding, Denotes;
      HoldingShape(packet);
      var data := Fields(p, 8, packet);
      var reply := app.setup(calls, data);
      calls := calls + 1;
      answer := reply;
      replyLen := TakeAnswer(reply);
      Wait(packet);
    }

    /** What usbFunctionSetup does to usbMsgPtr, and its result. */
    method TakeAnswer(answer: Answer) returns (replyLen: nat)
      requires Shape()
      modifies `msgPtr
      ensures answer.Serve? ==> replyLen == |answer.bytes| && Pending(answer.bytes)
      ensures answer.UserRw? ==> replyLen == USB_NO_MSG
    {
      match answer
      case Serve(bytes) =>
        msgPtr := Memory(bytes);
        replyLen := |bytes|;
      case UserRw =>
        replyLen := USB_NO_MSG;
    }

    /** The length tests at the end of SETUP processing. */
    method LimitReply(p: nat, replyLen0: nat, ghost answer: Answer, ghost packet: seq<bv8>) returns (replyLen: nat)
      requires Holding(packet) && rxLen == |packet| == 11 && p == USB_BUFSIZE + 1 - inputBufOffset
      requires if answer.Serve? then replyLen0 == |answer.bytes| else replyLen0 == USB_NO_MSG
      modifies `userRw
      ensures if answer.Serve? then userRw == old(userRw) && replyLen == |Limited(answer.bytes, packet[1..9])|
              else userRw && replyLen == Requested(packet[1..9])
      ensures replyLen <= USB_NO_MSG
    {
      hide Holding, Limited;
      replyLen := replyLen0;
      var bmRequestType := Field(p, 0, packet);
      var lengthLow := Field(p, 6, packet);
      var lengthHigh := Field(p, 7, packet);
      if replyLen == USB_NO_MSG {
        if (bmRequestType & 0x80) != 0 {
          replyLen := lengthLow as nat;
        }
        userRw := true;
      } else if lengthHigh == 0 && replyLen > lengthLow as nat {
        replyLen := lengthLow as nat;
      }
      if answer.Serve? { LimitedIsCut(answer.bytes, packet[1..9]); }
    }

    /** The end of SETUP processing: how much is to be sent, and whether the application supplies it. */
    method BeginTransfer(p: nat, replyLen0: nat, ghost answer: Answer, ghost asked: Request, ghost packet: seq<bv8>)
      requires Holding(packet) && rxLen == |packet| == 11 && p == USB_BUFSIZE + 1 - inputBufOffset
      requires asked.Request? && asked.setup == packet[1..9]
      requires IsHandshake(txLen) && !locked && !served && intact && !userRw
      requires blocks == [] && delivered == [] && toggles == 0
      requires txBuf[0] == TokenAt(toggles - 1)
      requires if answer.Serve? then replyLen0 == |answer.bytes| && Pending(answer.bytes) else replyLen0 == USB_NO_MSG
      modifies `arrivals, `traffic, `inputBufOffset, `rxLen, `rxToken, `currentTok, `accepted, rxBuf
      modifies `txLen, `tx1Len, `deviceAddr, `sent, `sent1, `delivered
      modifies `userRw, `msgLen, `served, `reply, `request
      ensures Holding(packet) && MsgValid() && Held()
      ensures request == asked && Answered(answer)
      ensures userRw ==> answer == UserRw && msgLen == Requested(asked.setup)
    {
      hide Holding, Limited, MsgValid, Pending, TokenAt, Requested, Answered, IsHandshake;
      var replyLen := LimitReply(p, replyLen0, answer, packet);
      Wait(packet);
      msgLen := replyLen;
      StartMessage(answer, asked, packet);
      Wait(packet);
    }

    /** From here on the transfer is under way. */
    ghost method StartMessage(answer: Answer, asked: Request, packet: seq<bv8>)
      requires Holding(packet) && |packet| == 11 && IsHandshake(txLen) && !locked
      requires intact && blocks == delivered == [] && toggles == 0
      requires txBuf[0] == TokenAt(toggles - 1) && msgLen <= USB_NO_MSG && !served
      requires if answer.Serve? then !userRw && Pending(answer.bytes) && msgLen == |Limited(answer.bytes, packet[1..9])|
               else userRw
      requires asked.Request? && asked.setup == packet[1..9]
      modifies `served, `reply, `request
      ensures Holding(packet) && MsgValid() && request == asked && Answered(answer)
    {
      hide RxValid, TxValid, Tx1Valid, Sent, Sent1, Limited, TokenAt;
      hide Toggled1, AddressValid, Logged;
      request := asked;
      if answer.Serve? {
        served := true;
        reply := Limited(answer.bytes, packet[1..9]);
        LimitedIsCut(answer.bytes, packet[1..9]);
        assert reply[0..] == reply;
      } else {
        reply := [];
      }
    }

    /** usbProcessRx for a SETUP packet of the right size: the transfer that begins carries the reply, limited to what
        the host asked for. */
    method Setup(p: nat, ghost packet: seq<bv8>)
      requires Holding(packet) && rxLen == |packet| == 11 && p == USB_BUFSIZE + 1 - inputBufOffset
      modifies `arrivals, `traffic, `inputBufOffset, `rxLen, `rxToken, `currentTok, `accepted, rxBuf
      modifies `txLen, `tx1Len, `deviceAddr, `sent, `sent1, `delivered
      modifies `newDeviceAddr, `configuration, `msgPtr, `calls, `userRw, `msgLen, `reset1, txBuf, tx1Buf
      modifies `served, `intact, `locked, `blocks, `toggles, `reply, `request, `readLens, `writeResults
      ensures Holding(packet) && MsgValid() && !locked
      ensures rxLen == old(rxLen) && rxToken == old(rxToken) && inputBufOffset == old(inputBufOffset)
      ensures old(traffic) <= traffic && accepted == old(accepted) && sent == old(sent) && sent1 == old(sent1)
      ensures blocks == delivered == [] && toggles == 0 && intact && IsHandshake(txLen)
      ensures Follows(old(State()), |old(sent1)|, Accepted(USBPID_SETUP, packet)) && Answered(AnswerTo(app, request))
      ensures readLens == [] && (userRw ==> Now() == Start(request))
      ensures newDeviceAddr == if Standard(Accepted(USBPID_SETUP, packet), 5) then packet[3] else old(newDeviceAddr)
    {
      hide Holding, StandardReply, SetupReply, MsgValid, Limited, TokenAt, Standard, Requested, Answered, AnswerTo;
      HoldingShape(packet);
      Forget(packet);
      assert State().(toggles := 0, intact := true, userRw := false, readLens := [], writeResults := [])
             == old(State()).(toggles := 0, intact := true, userRw := false, readLens := [], writeResults := []);
      Answer(p, packet);
    }

    /** The start of SETUP processing, with `usbMsgFlags = 0`. */
    method Forget(ghost packet: seq<bv8>)
      requires Holding(packet)
      modifies `arrivals, `traffic, `inputBufOffset, `rxLen, `rxToken, `currentTok, `accepted, rxBuf
      modifies `txLen, `tx1Len, `deviceAddr, `sent, `sent1, `delivered
      modifies `served, `intact, `locked, `blocks, `toggles, `userRw, `readLens, `writeResults, txBuf
      ensures Holding(packet) && IsHandshake(txLen) && !locked && !served && intact && blocks == [] && toggles == 0
      ensures !userRw && readLens == writeResults == []
      ensures txBuf[0] == TokenAt(toggles - 1) && Rest() == old(Rest())
      ensures rxLen == old(rxLen) && rxToken == old(rxToken) && inputBufOffset == old(inputBufOffset)
      ensures old(traffic) <= traffic && accepted == old(accepted)
      ensures sent == old(sent) && sent1 == old(sent1) && delivered == []
    {
      hide Holding, TokenAt, IsHandshake;
      HoldingShape(packet);
      AbortTransfer(packet);
      userRw, readLens, writeResults := false, [], [];
      Wait(packet);
    }

    /** The reply, and what is to be sent of it. */
    method Answer(p: nat, ghost packet: seq<bv8>)
      requires Holding(packet) && rxLen == |packet| == 11 && p == USB_BUFSIZE + 1 - inputBufOffset
      requires IsHandshake(txLen) && !locked && !served && intact && !userRw
      requires blocks == [] && delivered == [] && toggles == 0 && txBuf[0] == TokenAt(toggles - 1)
      requires writeResults == []
      modifies `arrivals, `traffic, `inputBufOffset, `rxLen, `rxToken, `currentTok, `accepted, rxBuf
      modifies `txLen, `tx1Len, `deviceAddr, `sent, `sent1, `delivered
      modifies `newDeviceAddr, `configuration, `msgPtr, `calls, `userRw, `msgLen, `reset1, txBuf, tx1Buf
      modifies `served, `reply, `request
      ensures Holding(packet) && MsgValid() && Held()
      ensures Follows(old(State()), |old(sent1)|, Accepted(USBPID_SETUP, packet)) && Answered(AnswerTo(app, request))
      ensures userRw ==> Now() == Start(request)
      ensures newDeviceAddr == if Standard(Accepted(USBPID_SETUP, packet), 5) then packet[3] else old(newDeviceAddr)
    {
      hide Holding, StandardReply, SetupReply, MsgValid, Pending, Requested, Limited, Standard, TokenAt, Answered;
      hide Toggle1, State, Follows;
      HoldingShape(packet);
      ghost var answer;
      var replyLen;
      replyLen, answer := AskReply(p, packet);
      BeginTransfer(p, replyLen, answer, old(Asking(packet[1..9])), packet);
      SetupFollows(packet);
    }

    /** usbProcessRx for the data phase of a control-out transfer. */
    method OutData(p: nat, len: nat, ghost packet: seq<bv8>)
      requires Holding(packet) && MsgValid() && !locked && p == USB_BUFSIZE + 1 - inputBufOffset && len + 1 <= rxLen
      modifies `arrivals, `traffic, `inputBufOffset, `rxLen, `rxToken, `currentTok, `accepted, rxBuf
      modifies `txLen, `tx1Len, `deviceAddr, `sent, `sent1, `delivered
      modifies `calls, `writeResults, `msgLen, `intact
      ensures Holding(packet) && MsgValid()
      ensures rxLen == old(rxLen) && rxToken == old(rxToken) && inputBufOffset == old(inputBufOffset)
      ensures old(traffic) <= traffic && accepted == old(accepted)
      ensures sent == old(sent) && sent1 == old(sent1) && delivered == old(delivered)
      ensures !userRw ==> txLen == old(txLen) && msgLen == old(msgLen)
      ensures userRw ==>
                var rval := app.write(old(calls), packet[1..1 + len]);
                && txLen == (if rval == 0xff then USBPID_STALL else old(txLen))
                && msgLen == (if rval != 0 && rval != 0xff then 0 else old(msgLen))
                && intact == (old(intact) && rval != 0xff) && calls == old(calls) + 1
                && writeResults == old(writeResults) + [rval]
      ensures !userRw ==> intact == old(intact) && calls == old(calls) && writeResults == old(writeResults)
    {
      hide Holding, MsgValid, IsHandshake;
      if userRw {
        var rval := WriteToApp(p, len, packet);
        TakeResult(rval, packet);
        Wait(packet);
      }
    }

    /** usbFunctionWrite. */
    method WriteToApp(p: nat, len: nat, ghost packet: seq<bv8>) returns (rval: nat)
      requires Holding(packet) && MsgValid() && p == USB_BUFSIZE + 1 - inputBufOffset && len + 1 <= rxLen
      modifies `arrivals, `traffic, `inputBufOffset, `rxLen, `rxToken, `currentTok, `accepted, rxBuf
      modifies `txLen, `tx1Len, `deviceAddr, `sent, `sent1, `delivered
      modifies `calls, `writeResults
      ensures Holding(packet) && MsgValid() && Held() && calls == old(calls) + 1
      ensures 1 + len <= |packet| && rval == app.write(old(calls), packet[1..1 + len])
      ensures writeResults == old(writeResults) + [rval]
    {
      hide Holding, MsgValid;
      HoldingShape(packet);
      var data := Fields(p, len, packet);
      rval := app.write(calls, data);
      calls, writeResults := calls + 1, writeResults + [rval];
      Wait(packet);
    }

    /** What the result of usbFunctionWrite leads to. */
    method TakeResult(rval: nat, ghost packet: seq<bv8>)
      requires Holding(packet) && MsgValid() && userRw
      modifies `txLen, `msgLen, `intact
      ensures Holding(packet) && MsgValid()
      ensures txLen == if rval == 0xff then USBPID_STALL else old(txLen)
      ensures msgLen == if rval != 0 && rval != 0xff then 0 else old(msgLen)
      ensures intact == (old(intact) && rval != 0xff)
    {
      hide Shared, MsgValid;
      UserMessage();
      if rval == 0xff {
        StallTx();
      } else if rval != 0 {
        LastData();
      }
    }

    /** "This was the final package": answer with an empty data packet. */
    method LastData()
      requires MsgValid() && userRw
      modifies `msgLen
      ensures MsgValid() && msgLen == 0
    {
      hide TokenAt, Packets, Pending;
      msgLen := 0;
    }

    lemma UserMessage()
      requires MsgValid() && userRw
      ensures !served
    {
    }

    /** usbProcessRx: p points to the data field in usbRxBuf, len counts it without the CRC. */
    method ProcessRx(p: nat, len: nat, ghost n: nat)
      requires Shared() && MsgValid() && TransferValid() && Supplied() && Counted() && DataPhase()
      requires !locked && !handled
      requires rxLen != 0 && p == USB_BUFSIZE + 1 - inputBufOffset && len == rxLen - 3 && n <= |sent1|
      modifies `arrivals, `traffic, `inputBufOffset, `rxLen, `rxToken, `currentTok, `accepted, rxBuf
      modifies `txLen, `tx1Len, `deviceAddr, `sent, `sent1, `delivered
      modifies `newDeviceAddr, `configuration, `msgPtr, `calls, `userRw, `msgLen, `reset1, txBuf, tx1Buf
      modifies `served, `intact, `locked, `blocks, `toggles, `reply, `request, `readLens, `writeResults
      modifies `processed, `handled
      ensures Shared() && MsgValid() && TransferValid() && Supplied() && Counted() && DataPhase()
      ensures !locked && rxLen == old(rxLen) && handled
      ensures old(traffic) <= traffic && accepted == old(accepted) && sent == old(sent) && sent1 == old(sent1)
      ensures var a := Accepted(old(rxToken), old(Stored()));
              && processed == old(processed) + [a] && 3 <= |a.packet|
              && Follows(old(State()), n, a) && Proceeds(old(State()), a)
              && (if IsSetup(a) then blocks == delivered == [] && IsHandshake(txLen) else Continued(a))
    {
      hide Shared, Holding, SetupReply, MsgValid, TransferValid, Answered, AnswerTo, Supplied, Standard, Follows,
           Continued, Counted, DataPhase, Proceeds, State;
      StoredPacket();
      ghost var a := Accepted(rxToken, Stored());
      Handle(p, len, a.packet);
      Finished(a.packet);
      TransferFollows(a);
      LogsFollow(a);
      FollowsSince(old(State()), |old(sent1)|, n, a);
    }

    /** The two kinds of packets. */
    method Handle(p: nat, len: nat, ghost packet: seq<bv8>)
      requires Holding(packet) && MsgValid() && !locked && rxLen == |packet| == len + 3
      requires p == USB_BUFSIZE + 1 - inputBufOffset
      modifies `arrivals, `traffic, `inputBufOffset, `rxLen, `rxToken, `currentTok, `accepted, rxBuf
      modifies `txLen, `tx1Len, `deviceAddr, `sent, `sent1, `delivered
      modifies `newDeviceAddr, `configuration, `msgPtr, `calls, `userRw, `msgLen, `reset1, txBuf, tx1Buf
      modifies `served, `intact, `locked, `blocks, `toggles, `reply, `request, `readLens, `writeResults
      ensures Holding(packet) && MsgValid() && !locked
      ensures rxLen == old(rxLen) && rxToken == old(rxToken) && inputBufOffset == old(inputBufOffset)
      ensures old(traffic) <= traffic && accepted == old(accepted) && sent == old(sent) && sent1 == old(sent1)
      ensures var a := Accepted(old(rxToken), packet);
              && Follows(old(State()), |old(sent1)|, a) && Proceeds(old(State()), a)
              && (if IsSetup(a) then
                    && blocks == delivered == [] && IsHandshake(txLen)
                    && Answered(AnswerTo(app, request)) && (userRw ==> Now() == Start(request))
                  else Continued(a))
    {
      hide Holding, SetupReply, MsgValid, Answered, AnswerTo;
      HoldingShape(packet);
      if rxToken == USBPID_SETUP {
        if len == 8 {
          Setup(p, packet);
        }
      } else {
        OutData(p, len, packet);
      }
    }

    /** The application, if it is asked, refuses the data of a control-out transfer. */
    predicate Refuses(rw: bool, calls: nat, a: Accepted)
      requires 3 <= |a.packet|
    {
      a.token != USBPID_SETUP && rw && app.write(calls, a.packet[1..|a.packet| - 2]) == 0xff
    }

    /** It takes them as the last ones. */
    predicate Completes(rw: bool, calls: nat, a: Accepted)
      requires 3 <= |a.packet|
    {
      && a.token != USBPID_SETUP && rw
      && var rval := app.write(calls, a.packet[1..|a.packet| - 2]); rval != 0 && rval != 0xff
    }

    /** A packet other than a SETUP leaves the transfer running; the application's answer, if it is asked, counts. */
    twostate predicate Continued(a: Accepted)
      requires 3 <= |a.packet|
      reads `served, `reply, `userRw, `toggles, `blocks, `delivered, `txLen, `msgLen, `intact, `calls
      reads `readLens, `writeResults
    {
      var written := a.token != USBPID_SETUP && old(userRw);
      && served == old(served) && reply == old(reply) && userRw == old(userRw)
      && toggles == old(toggles) && blocks == old(blocks) && delivered == old(delivered)
      && txLen == (if Refuses(old(userRw), old(calls), a) then USBPID_STALL else old(txLen))
      && msgLen == Remaining(old(userRw), old(calls), a, old(msgLen))
      && readLens == old(readLens) && writeResults == old(writeResults) + Writes(old(userRw), old(calls), a)
      && intact == (old(intact) && !Refuses(old(userRw), old(calls), a))
      && calls == old(calls) + (if written then 1 else 0)
    }

    /** With the packet in the log, the transfer is that of the last SETUP in it. */
    twostate lemma TransferFollows(a: Accepted)
      requires old(TransferValid()) && Shape() && processed == old(processed) + [a]
      requires 3 <= |a.packet| && Follows(old(State()), |old(sent1)|, a) && Proceeds(old(State()), a)
      requires if IsSetup(a) then
                 Answered(AnswerTo(app, request)) && blocks == [] && (userRw ==> Now() == Start(request))
               else Continued(a)
      ensures TransferValid() && Supplied()
    {
      hide AnswerTo, Refuses, Completes;
      assert processed[..|processed| - 1] == old(processed);
    }

    /** So are the packets built for it, and what the application has been asked for. */
    twostate lemma LogsFollow(a: Accepted)
      requires old(TransferValid()) && old(Counted()) && old(DataPhase()) && TransferValid()
      requires Shape() && built == old(built) && 3 <= |a.packet|
      requires Follows(old(State()), |old(sent1)|, a) && Proceeds(old(State()), a)
      requires if IsSetup(a) then
                 Answered(AnswerTo(app, request)) && blocks == [] && (userRw ==> Now() == Start(request))
               else Continued(a)
      ensures Counted() && DataPhase()
    {
      hide AnswerTo, LastConfiguration, LastSetup, Limited, EmptyPackets, Finals, PacketOf, TokenAt;
      NoneEmptyYet();
      if !IsSetup(a) && a.token != USBPID_SETUP && old(userRw) {
        FinalsMore(old(writeResults), app.write(old(calls), a.packet[1..|a.packet| - 2]));
      } else if !IsSetup(a) {
        assert writeResults == old(writeResults);
      }
    }

    lemma StoredPacket()
      requires Shared() && rxLen != 0
      ensures Shape() && inputBufOffset <= USB_BUFSIZE && 4 <= rxLen <= USB_BUFSIZE
      ensures |Stored()| == rxLen && Holding(Stored())
    {
    }

    /** Record what the main loop has just worked on, as it is in the buffer now. */
    ghost method Finished(packet: seq<bv8>)
      requires Holding(packet) && !handled
      modifies `processed, `handled
      ensures Shape() && Shared() && handled
      ensures processed == old(processed) + [Accepted(rxToken, packet)] == accepted
    {
      hide TxValid, Tx1Valid, Sent, Sent1, Delivery, LockValid;
      hide Toggled1, AddressValid, Logged;
      processed := processed + [Accepted(rxToken, Stored())];
      handled := true;
    }

    // ---- usbPoll

    /** usbPoll with a packet in the buffer: it is processed, and only then is its half handed back. */
    method PollRx(len: nat, ghost n: nat)
      requires Valid() && rxLen != 0 && len == rxLen - 3 && n <= |sent1|
      modifies `arrivals, `traffic, `inputBufOffset, `rxLen, `rxToken, `currentTok, `accepted, rxBuf
      modifies `txLen, `tx1Len, `deviceAddr, `sent, `sent1, `delivered
      modifies `newDeviceAddr, `configuration, `msgPtr, `calls, `userRw, `msgLen, `reset1, txBuf, tx1Buf
      modifies `served, `intact, `locked, `blocks, `toggles, `reply, `request, `readLens, `writeResults
      modifies `processed, `handled
      ensures Valid() && Grown()
      ensures var a := Accepted(old(rxToken), old(Stored()));
              && processed == old(processed) + [a] && 3 <= |a.packet|
              && Follows(old(State()), n, a) && Proceeds(old(State()), a)
              && (IsSetup(a) || IsHandshake(old(txLen)) ==> IsHandshake(txLen))
              && (Refuses(old(userRw), old(calls), a) ==> txLen == USBPID_STALL)
    {
      hide Shared, MsgValid, BuiltValid, BuiltValid1, TransferValid, Supplied, Counted, DataPhase, Standard, IsSetup;
      hide Undisturbed, Refuses, Follows, Proceeds, State;
      SharedShape();
      RxFacts();
      ghost var a := Accepted(rxToken, Stored());
      ProcessRx(USB_BUFSIZE + 1 - inputBufOffset, len, n);
      RefusedSetup(old(userRw), old(calls), a);
      HandBack();
    }

    /** What usbFunctionWrite returns, if it is called. */
    ghost function Writes(rw: bool, calls: nat, a: Accepted): seq<nat>
      requires 3 <= |a.packet|
    {
      if a.token != USBPID_SETUP && rw then [app.write(calls, a.packet[1..|a.packet| - 2])] else []
    }

    /** How much is to be sent after a packet other than a SETUP. */
    ghost function Remaining(rw: bool, calls: nat, a: Accepted, left: nat): nat
      requires 3 <= |a.packet|
    {
      if Completes(rw, calls, a) then 0 else left
    }

    lemma RxFacts()
      requires Shared()
      ensures inputBufOffset <= USB_BUFSIZE && (rxLen == 0 || 4 <= rxLen <= USB_BUFSIZE)
    {
    }

    /** `usbRxLen = 0`. */
    method Release()
      requires Shared() && handled && !locked && rxLen != 0
      modifies `rxLen, `handled
      ensures Shared() && !handled
    {
      hide TxValid, Tx1Valid, Sent, Sent1, Delivery;
      hide Toggled1, AddressValid, Logged;
      rxLen := 0;
      handled := false;
    }

    method HandBack()
      requires Shared() && handled && !locked && rxLen != 0
      modifies `arrivals, `traffic, `inputBufOffset, `rxLen, `rxToken, `currentTok, `accepted, rxBuf
      modifies `txLen, `tx1Len, `deviceAddr, `sent, `sent1, `delivered
      modifies `handled
      ensures Shape() && Shared() && !handled && Grown() && (IsHandshake(old(txLen)) ==> txLen == old(txLen))
    {
      hide Gap;
      hide RxValid, TxValid, Tx1Valid, Sent, Sent1, Delivery, LockValid;
      hide Toggled1, AddressValid, Logged;
      Interrupts();
      Release();
      Interrupts();
    }

    /** The transmit half of usbPoll.  The test of usbTxLen stays true while the block is built: the interrupt routine
        never puts a length there. */
    method PollTx()
      requires Valid()
      modifies `arrivals, `traffic, `inputBufOffset, `rxLen, `rxToken, `currentTok, `accepted, rxBuf
      modifies `txLen, `tx1Len, `deviceAddr, `sent, `sent1, `delivered
      modifies `msgLen, `toggles, `msgPtr, `calls, `readLens, `built, `blocks, `intact, txBuf
      ensures Valid()
      ensures Grown() && old(built) <= built
      ensures var begins := IsHandshake(old(txLen)) && old(msgLen) != USB_NO_MSG;
              && toggles == old(toggles) + (if begins then 1 else 0)
              && (begins && served ==>
                    && toggles - 1 <= |reply| / 8
                    && built == old(built) + [PacketOf(TokenAt(toggles - 1), Chunk(reply, toggles - 1))])
              && (begins && userRw ==>
                    && old(msgLen) < USB_NO_MSG
                    && (NextBlock(app, old(Now())).0 <= 8 ==>
                          built == old(built) + [PacketOf(TokenAt(toggles - 1), NextBlock(app, old(Now())).1)]))
              && (!begins ==> built == old(built) && (IsHandshake(old(txLen)) ==> txLen == old(txLen)))
              && readLens == old(readLens) + (if begins then AskedFor(userRw, Wanted(old(msgLen))) else [])
      ensures old(intact) && !intact ==>
                userRw && old(msgLen) < USB_NO_MSG && NextBlock(app, old(Now())).0 > 8
    {
      hide Shared, MsgValid, BuiltValid, BuiltValid1, TransferValid, Supplied, Counted, DataPhase, NextBlock, Chunk,
           PacketOf, TokenAt, AskedFor, Wanted, Now;
      if IsHandshake(txLen) {
        Pause();
        if msgLen != USB_NO_MSG {
          OneBlock();
        }
      }
    }

    /** One more block keeps a transfer that the application supplies on its course. */
    method OneBlock()
      requires Shared() && MsgValid() && BuiltValid() && TransferValid() && Supplied() && Counted() && DataPhase()
      requires !locked && IsHandshake(txLen) && msgLen != USB_NO_MSG
      modifies `arrivals, `traffic, `inputBufOffset, `rxLen, `rxToken, `currentTok, `accepted, rxBuf
      modifies `txLen, `tx1Len, `deviceAddr, `sent, `sent1, `delivered
      modifies `msgLen, `toggles, `msgPtr, `calls, `readLens, `built, `blocks, `intact, txBuf
      ensures Shared() && MsgValid() && BuiltValid() && TransferValid() && Supplied() && Counted() && DataPhase()
      ensures Grown() && toggles == old(toggles) + 1 >= 1 && old(built) <= built
      ensures served ==>
                && toggles - 1 <= |reply| / 8
                && built == old(built) + [PacketOf(TokenAt(toggles - 1), Chunk(reply, toggles - 1))]
      ensures userRw ==>
                && old(msgLen) < USB_NO_MSG
                && (NextBlock(app, old(Now())).0 <= 8 ==>
                      built == old(built) + [PacketOf(TokenAt(toggles - 1), NextBlock(app, old(Now())).1)])
      ensures readLens == old(readLens) + AskedFor(userRw, Wanted(old(msgLen)))
      ensures old(intact) && !intact ==>
                userRw && old(msgLen) < USB_NO_MSG && NextBlock(app, old(Now())).0 > 8
    {
      hide Shared, BuiltValid, TransferValid, NextBlock, NextCourse, PacketOf, TokenAt, Packets, Pending, Tokened;
      hide MsgValid, Supplied, Counted, DataPhase;
      SharedShape();
      MsgFits();
      BuildTxBlock();
      MsgFits();
      SuppliedMore();
      LogsMore();
    }

    /** What building a block means for the records of the transfer. */
    twostate predicate Stepped()
      requires Shape()
      reads `toggles, `blocks, `built, `readLens, `userRw, `msgLen, `calls, `intact, txBuf
    {
      && toggles == old(toggles) + 1
      && old(blocks) <= blocks && |blocks| <= |old(blocks)| + 1 && built == old(built) + blocks[|old(blocks)|..]
      && readLens == old(readLens) + AskedFor(userRw, Wanted(old(msgLen)))
      && (userRw ==>
            && old(msgLen) < USB_NO_MSG
            && var block := NextBlock(app, old(Now()));
               if block.0 <= 8 then
                 && blocks == old(blocks) + [PacketOf(TokenAt(toggles - 1), block.1)]
                 && Now() == NextCourse(app, old(Now())) && intact == old(intact)
               else !intact && msgLen == USB_NO_MSG)
    }

    /** One block more is one step of the course. */
    twostate lemma SuppliedMore()
      requires Shape() && old(Supplied()) && Stepped() && (old(intact) ==> |old(blocks)| == old(toggles))
      requires request == old(request) && userRw == old(userRw) && processed == old(processed)
      ensures Supplied()
    {
      hide NextBlock, NextCourse, PacketOf, TokenAt, Start;
      if userRw && Modest(app) { ModestBlock(app, old(Now())); }
    }

    twostate lemma LogsMore()
      requires Shape() && old(Counted()) && old(DataPhase()) && Stepped()
      requires request == old(request) && userRw == old(userRw) && writeResults == old(writeResults)
      ensures Counted() && DataPhase()
    {
      hide NextBlock, NextCourse, PacketOf, TokenAt, EmptyPackets, Finals;
      EmptyMore(old(toggles));
      if userRw && old(msgLen) == 0 { EmptyBlock(app, old(Now())); }
    }

    lemma MsgFits()
      requires MsgValid()
      ensures msgLen <= USB_NO_MSG && (intact ==> |blocks| == toggles) && (userRw || intact)
    {
      hide TokenAt, Packets, Pending, Tokened;
    }

    /** A packet that waits is processed. */
    method TakePacket()
      requires Valid()
      modifies `arrivals, `traffic, `inputBufOffset, `rxLen, `rxToken, `currentTok, `accepted, rxBuf
      modifies `txLen, `tx1Len, `deviceAddr, `sent, `sent1, `delivered
      modifies `newDeviceAddr, `configuration, `msgPtr, `calls, `userRw, `msgLen, `reset1, txBuf, tx1Buf
      modifies `served, `intact, `locked, `blocks, `toggles, `reply, `request, `readLens, `writeResults
      modifies `processed, `handled
      ensures Valid() && Grown() && |old(processed)| <= |processed| <= |old(processed)| + 1
      ensures old(processed) <= processed
      ensures old(rxLen) != 0 ==> processed == old(processed) + [Accepted(old(rxToken), old(Stored()))]
      ensures processed == old(processed) ==>
                && Shape() && State() == old(State()) && blocks == old(blocks)
                && (IsHandshake(old(txLen)) ==> txLen == old(txLen))
      ensures processed != old(processed) ==>
                var a := processed[|processed| - 1];
                && Shape() && 3 <= |a.packet| && Follows(old(State()), |old(sent1)|, a) && Proceeds(old(State()), a)
                && (IsSetup(a) || IsHandshake(old(txLen)) ==> IsHandshake(txLen))
                && (Refuses(old(userRw), old(calls), a) ==> txLen == USBPID_STALL)
    {
      hide Valid, IsSetup, Follows, Proceeds, State, Stored, IsHandshake;
      ValidShape();
      var len := ReadRxLen();
      if len >= 0 {
        PollRx(len, |old(sent1)|);
      }
    }

    /** The receive half of usbPoll: usbRxLen is read once, while packets may still arrive.  A packet that waits is
        processed; if none is, nothing of the current transfer changes. */
    method PollReceive()
      requires Valid()
      modifies `arrivals, `traffic, `inputBufOffset, `rxLen, `rxToken, `currentTok, `accepted, rxBuf
      modifies `txLen, `tx1Len, `deviceAddr, `sent, `sent1, `delivered
      modifies `newDeviceAddr, `configuration, `msgPtr, `calls, `userRw, `msgLen, `reset1, txBuf, tx1Buf
      modifies `served, `intact, `locked, `blocks, `toggles, `reply, `request, `readLens, `writeResults
      modifies `processed, `handled
      ensures Valid() && Shape() && Grown()
      ensures old(processed) <= processed && |processed| <= |old(processed)| + 1
      ensures old(rxLen) != 0 ==> processed == old(processed) + [Accepted(old(rxToken), old(Stored()))]
      ensures processed == old(processed) ==>
                && State() == old(State()) && request == old(request) && msgLen == old(msgLen)
                && toggles == old(toggles) && intact == old(intact) && configuration == old(configuration)
                && newDeviceAddr == old(newDeviceAddr) && reset1 == old(reset1) && tx1Buf[..] == old(tx1Buf[..])
                && readLens == old(readLens) && writeResults == old(writeResults) && Now() == old(Now())
                && userRw == old(userRw) && blocks == old(blocks) && (IsHandshake(old(txLen)) ==> txLen == old(txLen))
      ensures processed != old(processed) ==>
                var a := processed[|processed| - 1];
                && 3 <= |a.packet| && Follows(old(State()), |old(sent1)|, a) && Proceeds(old(State()), a)
                && newDeviceAddr == (if Standard(a, 5) then a.packet[3] else old(newDeviceAddr))
                && (IsSetup(a) || IsHandshake(old(txLen)) ==> IsHandshake(txLen))
                && (if IsSetup(a) then
                      && toggles == 0 && intact && request.Request?
                      && (userRw ==> Starting())
                    else
                      && request == old(request) && toggles == old(toggles) && readLens == old(readLens)
                      && msgLen == Remaining(old(userRw), old(calls), a, old(msgLen)))
    {
      hide Valid, Follows, Proceeds, State, Stored, IsHandshake, Standard, IsSetup, Remaining, Start, Starting, Refuses;
      ValidShape();
      TakePacket();
      if processed != old(processed) {
        FollowsFacts(processed[|processed| - 1]);
        ProceedsFacts(processed[|processed| - 1]);
        SuppliedStart();
      } else {
        SameState();
      }
    }

    /** `len = usbRxLen - 3`. */
    method ReadRxLen() returns (len: int)
      requires Valid()
      modifies `arrivals, `traffic, `inputBufOffset, `rxLen, `rxToken, `currentTok, `accepted, rxBuf
      modifies `txLen, `tx1Len, `deviceAddr, `sent, `sent1, `delivered
      ensures Valid() && Grown() && (IsHandshake(old(txLen)) ==> txLen == old(txLen))
      ensures Shape() && inputBufOffset <= USB_BUFSIZE && old(inputBufOffset) <= USB_BUFSIZE
      ensures rxLen <= USB_BUFSIZE && old(rxLen) <= USB_BUFSIZE
      ensures len >= 0 ==> rxLen != 0 && len == rxLen - 3
      ensures old(rxLen) != 0 ==> len >= 0 && rxToken == old(rxToken) && Stored() == old(Stored())
    {
      hide Shared, Records, BuiltValid1, Gap;
      RxFacts();
      Interrupts();
      RxFacts();
      len := rxLen - 3;
      Interrupts();
    }

    lemma ValidShape()
      requires Valid()
      ensures Shape() && inputBufOffset <= USB_BUFSIZE && rxLen <= USB_BUFSIZE
    {
    }

    /** What arrives from now on. */
    method SetArrivals(schedule: Schedule)
      requires Valid()
      modifies `arrivals
      ensures Valid() && arrivals == schedule
    {
      hide Shared, Records, BuiltValid1;
      arrivals := schedule;
    }

    /** The bus reset at the end of usbPoll. */
    method PollReset(reset: bool)
      requires Valid()
      modifies `arrivals, `traffic, `inputBufOffset, `rxLen, `rxToken, `currentTok, `accepted, rxBuf
      modifies `txLen, `tx1Len, `deviceAddr, `sent, `sent1, `delivered
      modifies `newDeviceAddr
      ensures Valid() && Grown()
      ensures newDeviceAddr == if reset then 0 else old(newDeviceAddr)
      ensures (reset ==> deviceAddr == 0) && (IsHandshake(old(txLen)) ==> txLen == old(txLen))
    {
      hide Gap;
      hide Shared, Records, BuiltValid1, Gap;
      if reset {
        ClearAddresses();
      }
      Interrupts();
    }

    method ClearAddresses()
      requires Valid()
      modifies `arrivals, `traffic, `inputBufOffset, `rxLen, `rxToken, `currentTok, `accepted, rxBuf
      modifies `txLen, `tx1Len, `deviceAddr, `sent, `sent1, `delivered
      modifies `newDeviceAddr
      ensures Valid() && Grown() && newDeviceAddr == deviceAddr == 0
      ensures IsHandshake(old(txLen)) ==> txLen == old(txLen)
    {
      hide Shared, Records, BuiltValid1, Gap;
      newDeviceAddr := 0;
      Interrupts();
      ClearAddress();
    }

    /** `usbDeviceAddr = 0`. */
    method ClearAddress()
      requires Shared()
      modifies `deviceAddr
      ensures Shared() && deviceAddr == 0
    {
      hide RxValid, TxValid, Tx1Valid, Sent, Sent1, Delivery, LockValid, Toggled1, Logged;
      deviceAddr := 0;
    }

    /** One call of usbPoll; `reset` says whether the bus is held at SE0.  A packet that was waiting is processed.  If
        none is processed, a block is begun exactly if the buffer was free and there was a message; if a SETUP packet
        is, and its reply is served from usbMsgPtr, the first block of the transfer is built at once. */
    method Poll(reset: bool)
      requires Valid()
      modifies `arrivals, `traffic, `inputBufOffset, `rxLen, `rxToken, `currentTok, `accepted, rxBuf
      modifies `txLen, `tx1Len, `deviceAddr, `sent, `sent1, `delivered
      modifies `newDeviceAddr, `configuration, `msgPtr, `calls, `userRw, `msgLen, `reset1, txBuf, tx1Buf
      modifies `served, `intact, `locked, `blocks, `toggles, `reply, `request, `readLens, `writeResults
      modifies `processed, `handled, `built
      ensures Valid() && Grown() && old(built) <= built
      ensures old(processed) <= processed && |processed| <= |old(processed)| + 1
      ensures old(rxLen) != 0 ==> processed == old(processed) + [Accepted(old(rxToken), old(Stored()))]
      ensures processed != old(processed) ==>
                var a := processed[|processed| - 1];
                && 3 <= |a.packet| && Follows(old(State()), |old(sent1)|, a)
                && newDeviceAddr == (if reset then 0 else if Standard(a, 5) then a.packet[3] else old(newDeviceAddr))
                && (if IsSetup(a) then
                      && (served ==> toggles == 1 && built == old(built) + [PacketOf(DATA1, Chunk(reply, 0))])
                      && (userRw ==> Starts(Start(request), old(built)))
                    else
                      && served == old(served) && reply == old(reply) && userRw == old(userRw)
                      && old(readLens) <= readLens
                      && (IsHandshake(old(txLen)) ==>
                            toggles == old(toggles)
                            + if Remaining(userRw, old(calls), a, old(msgLen)) != USB_NO_MSG then 1 else 0))
      ensures processed == old(processed) ==>
                && request == old(request) && served == old(served) && reply == old(reply) && userRw == old(userRw)
                && configuration == old(configuration) && newDeviceAddr == (if reset then 0 else old(newDeviceAddr))
                && reset1 == old(reset1) && tx1Buf[..] == old(tx1Buf[..])
                && writeResults == old(writeResults) && old(readLens) <= readLens
                && (old(intact) && !intact ==>
                      userRw && old(msgLen) < USB_NO_MSG && NextBlock(app, old(Now())).0 > 8)
                && (IsHandshake(old(txLen)) ==>
                      toggles == old(toggles) + if old(msgLen) != USB_NO_MSG then 1 else 0)
      ensures reset ==> deviceAddr == 0
    {
      hide Valid, PacketOf, Chunk, NextBlock, Standard, IsSetup, ResetsToggle, Follows, Starts, Remaining, Start;
      hide AskedFor, Wanted, Proceeds, State, Now, Stored, Refuses, IsHandshake;
      ValidShape();
      PollReceive();
      PollSend(reset);
      SameTransfer();
    }

    /** The first block of a transfer that the application supplies, or none if nothing has been asked for yet. */
    ghost predicate Starts(start: Course, was: seq<seq<bv8>>)
      requires Proper(start)
      reads `toggles, `built
    {
      if start.left == USB_NO_MSG then toggles == 0 && built == was
      else toggles == 1 && (NextBlock(app, start).0 <= 8 ==> built == was + [PacketOf(DATA1, NextBlock(app, start).1)])
    }

    /** A transfer that the application supplies has just begun. */
    ghost predicate Starting()
      requires Shape()
      reads `request, `calls, `msgLen, txBuf
    {
      request.Request? && |request.setup| == 8 && |request.rest| == USB_BUFSIZE - 1 && Now() == Start(request)
    }

    lemma SuppliedStart()
      requires Valid()
      ensures Shape() && (userRw && Alone() && intact && toggles == 0 ==> Starting())
    {
      hide Shared, BuiltValid, BuiltValid1, TransferValid, Counted, DataPhase, Pending, TokenAt, Packets;
    }

    lemma RefusedSetup(rw: bool, calls: nat, a: Accepted)
      requires 3 <= |a.packet|
      ensures Refuses(rw, calls, a) ==> !IsSetup(a)
    {
    }

    /** The rest of usbPoll. */
    method PollSend(reset: bool)
      requires Valid()
      modifies `arrivals, `traffic, `inputBufOffset, `rxLen, `rxToken, `currentTok, `accepted, rxBuf
      modifies `txLen, `tx1Len, `deviceAddr, `sent, `sent1, `delivered
      modifies `msgLen, `toggles, `msgPtr, `calls, `readLens, `built, `blocks, `intact, txBuf, `newDeviceAddr
      ensures Valid() && Shape() && Grown() && old(built) <= built
      ensures IsHandshake(old(txLen)) ==> toggles == old(toggles) + if old(msgLen) != USB_NO_MSG then 1 else 0
      ensures IsHandshake(old(txLen)) && old(toggles) == 0 && served ==>
                toggles == 1 && built == old(built) + [PacketOf(DATA1, Chunk(reply, 0))]
      ensures old(msgLen) <= USB_NO_MSG
      ensures IsHandshake(old(txLen)) && old(toggles) == 0 && userRw ==> Starts(old(Now()), old(built))
      ensures readLens == old(readLens) || readLens == old(readLens) + AskedFor(userRw, Wanted(old(msgLen)))
      ensures old(intact) && !intact ==>
                userRw && old(msgLen) < USB_NO_MSG && NextBlock(app, old(Now())).0 > 8
      ensures newDeviceAddr == (if reset then 0 else old(newDeviceAddr)) && (reset ==> deviceAddr == 0)
    {
      hide Valid, PacketOf, Chunk, NextBlock, AskedFor;
      ValidShape();
      ServedMessage();
      PollTx();
      PollReset(reset);
    }

    /** The last SETUP determines the transfer. */
    twostate lemma SameTransfer()
      requires old(Valid()) && Valid()
      ensures request == old(request) ==> served == old(served) && reply == old(reply) && userRw == old(userRw)
    {
      hide Shared, MsgValid, BuiltValid, BuiltValid1, Supplied, SetupReply;
    }

    /** A transfer from usbMsgPtr begins with something to send. */
    lemma ServedMessage()
      requires Valid()
      ensures (served && toggles == 0 ==> msgLen != USB_NO_MSG) && msgLen <= USB_NO_MSG
    {
      hide Shared, BuiltValid, BuiltValid1, TransferValid, Supplied, Counted, DataPhase, Tokened, Pending, TokenAt;
    }

    // ---- the interrupt endpoint

    /** While a block is built for endpoint 1, its token is already the next one. */
    ghost predicate Turned()
      reads `tx1Len, `turned1
    {
      IsHandshake(tx1Len) && turned1
    }

    /** No packet has come or gone. */
    twostate predicate Calm()
      reads `rxLen, `deviceAddr, `sent1
    {
      rxLen == old(rxLen) && deviceAddr == old(deviceAddr) && sent1 == old(sent1)
    }

    /** `txStatus->buffer[0] ^= USBPID_DATA0 ^ USBPID_DATA1`. */
    method TurnToken()
      requires Shape() && Shared() && IsHandshake(tx1Len) && !turned1
      modifies `turned1, tx1Buf
      ensures Shape() && Shared() && Turned() && tx1Buf[0] == old(tx1Buf[0]) ^ (DATA0 ^ DATA1)
    {
      hide Subsequence;
      hide RxValid, TxValid, Sent, Sent1, Delivery, LockValid, AddressValid;
      ghost var was := tx1Buf[..];
      TokenTurns(tx1Buf[0]);
      tx1Buf[0] := tx1Buf[0] ^ (DATA0 ^ DATA1);
      assert tx1Buf[..] == was[0 := tx1Buf[0]];
      turned1 := true;
    }

    /** `txStatus->len = USBPID_NAK`, with a packet in the buffer, or one that has just left. */
    method Withdraw1()
      requires Shape() && Shared() && !turned1 && (early || !IsHandshake(tx1Len))
      modifies `tx1Len, `turned1
      ensures Shape() && Shared() && Turned()
    {
      hide Subsequence;
      hide RxValid, TxValid, Sent, Delivery, LockValid, AddressValid;
      GoneMore(tx1Len, USBPID_NAK, Bodies(sent1), built1);
      tx1Len := USBPID_NAK;
      turned1 := true;
    }

    method PutByte1(data: nat, c: bv8)
      requires Shape() && Shared() && Turned() && 1 <= data < USB_BUFSIZE
      modifies tx1Buf
      ensures Shape() && Shared() && Turned() && tx1Buf[..] == old(tx1Buf[..])[data := c]
    {
      hide Subsequence;
      hide RxValid, TxValid, Sent, Sent1, Delivery, LockValid, AddressValid;
      tx1Buf[data] := c;
    }

    /** A byte behind the token. */
    method Put1(data: nat, c: bv8)
      requires Shape() && Shared() && Turned() && 1 <= data < USB_BUFSIZE
      modifies `arrivals, `traffic, `inputBufOffset, `rxLen, `rxToken, `currentTok, `accepted, rxBuf
      modifies `txLen, `tx1Len, `deviceAddr, `sent, `sent1, `delivered
      modifies tx1Buf
      ensures Shape() && Shared() && Turned() && Grown()
      ensures tx1Buf[..] == old(tx1Buf[..])[data := c] && tx1Buf[0] == old(tx1Buf[0])
      ensures arrivals == Later(old(arrivals), 1) && (Quiet(old(arrivals), 1) ==> Calm())
    {
      PutByte1(data, c);
      hide Shared, Turned;
      SecondGap();
    }

    /** The test at the start of usbGenericSetInterrupt.  The interrupt routine may send the old packet between the
        test and the assignment; then the token does not change, but nothing torn is ever sent. */
    method Claim1()
      requires Shape() && Shared() && !turned1
      modifies `arrivals, `traffic, `inputBufOffset, `rxLen, `rxToken, `currentTok, `accepted, rxBuf
      modifies `txLen, `tx1Len, `deviceAddr, `sent, `sent1, `delivered
      modifies `early, `turned1, tx1Buf
      ensures Shape() && Shared() && Turned() && Grown()
      ensures tx1Buf[0] == NextToken1(old(tx1Len), old(tx1Buf[0]))
      ensures early == (old(early) || old(MayLeave1()))
      ensures arrivals == Later(old(arrivals), 2) && (Quiet(old(arrivals), 2) ==> Calm())
      ensures old(Polled1()) && Quiet(Later(old(arrivals), 1), 1) ==>
                rxLen == 0 && deviceAddr == newDeviceAddr << 1 && sent1 == old(sent1) + [old(Waiting1())]
    {
      hide Shared, Gap, Left, Polled1, Quiet, Later, Turned;
      SharedShape();
      MayLeave();
      LaterMore(arrivals, 1, 1);
      NoteEarly();
      var empty := IsHandshake(tx1Len);
      FirstGap();
      if empty {
        TurnToken();
      } else {
        Withdraw1();
      }
      SecondGap();
    }

    ghost method NoteEarly()
      requires Shared()
      modifies `early
      ensures Shape() && Shared() && early == (old(early) || MayLeave1())
    {
      hide RxValid, TxValid, Tx1Valid, Sent, Sent1, Delivery, LockValid, AddressValid, Alternate, MayLeave1;
      early := early || MayLeave1();
    }

    /** The gap behind the test. */
    method FirstGap()
      requires Shape() && Shared()
      modifies `arrivals, `traffic, `inputBufOffset, `rxLen, `rxToken, `currentTok, `accepted, rxBuf
      modifies `txLen, `tx1Len, `deviceAddr, `sent, `sent1, `delivered
      ensures Shape() && Shared() && Grown() && arrivals == Later(old(arrivals), 1)
      ensures old(rxLen) != 0 || IsHandshake(old(tx1Len)) ==> tx1Len == old(tx1Len)
      ensures Quiet(old(arrivals), 1) ==> Calm()
      ensures old(Polled1()) ==>
                rxLen == 0 && deviceAddr == newDeviceAddr << 1 && sent1 == old(sent1) + [old(Waiting1())]
    {
      hide Shared, Polled1;
      Interrupts();
    }

    /** A gap in which endpoint 1 has nothing to send. */
    method SecondGap()
      requires Shape() && Shared() && Turned()
      modifies `arrivals, `traffic, `inputBufOffset, `rxLen, `rxToken, `currentTok, `accepted, rxBuf
      modifies `txLen, `tx1Len, `deviceAddr, `sent, `sent1, `delivered
      ensures Shape() && Shared() && Turned() && Grown() && arrivals == Later(old(arrivals), 1)
      ensures Quiet(old(arrivals), 1) ==> Calm()
    {
      hide Shared, Polled1, Left;
      Interrupts();
    }

    lemma SharedShape()
      requires Shared()
      ensures Shape()
    {
    }

    /** The copying loop, which copies one byte even if len is 0. */
    method CopyLoop1(bytes: seq<bv8>, len: nat)
      requires Shape() && Shared() && Turned() && len <= 8 && len <= |bytes| && bytes != []
      modifies `arrivals, `traffic, `inputBufOffset, `rxLen, `rxToken, `currentTok, `accepted, rxBuf
      modifies `txLen, `tx1Len, `deviceAddr, `sent, `sent1, `delivered
      modifies tx1Buf
      ensures Shape() && Shared() && Turned() && Grown()
      ensures tx1Buf[1..1 + len] == bytes[..len] && tx1Buf[0] == old(tx1Buf[0])
      ensures var slots := if len == 0 then 1 else len;
              arrivals == Later(old(arrivals), slots) && (Quiet(old(arrivals), slots) ==> Calm())
    {
      hide Shared, Turned, Quiet, Later;
      NoneLater(arrivals);
      var i: int, r := len, 0;
      while true
        invariant r < 8 && (i == len - r > 0 || (len == i == r == 0))
        invariant Shape() && Shared() && Turned() && Grown()
        invariant tx1Buf[1..1 + r] == bytes[..r] && tx1Buf[0] == old(tx1Buf[0])
        invariant arrivals == Later(old(arrivals), r) && (Quiet(old(arrivals), r) ==> Calm())
        decreases i
      {
        LaterMore(old(arrivals), r, 1);
        Put1(1 + r, bytes[r]);
        assert tx1Buf[1..1 + r + 1] == tx1Buf[1..1 + r] + [bytes[r]];
        r := r + 1;
        i := i - 1;
        if i <= 0 { break; }
      }
      assert len > 0 ==> r == len;
    }

    method Crc1(len: nat) returns (l: bv8, h: bv8)
      requires Shape() && len <= 8
      ensures [l, h] == CrcBytes(tx1Buf[1..1 + len])
    {
      var bytes := tx1Buf[..];
      var mem := (k: nat) => if k < |bytes| then bytes[k] else 0;
      var ptr;
      h, l, ptr := UsbCrc16(mem, 1, len);
      assert Slice(mem, 1, len) == bytes[1..1 + len];
      CrcBytesFrom(bytes[1..1 + len], h, l);
    }

    /** usbCrc16Append for this endpoint. */
    method AppendCrc1(len: nat)
      requires Shape() && Shared() && Turned() && len <= 8
      modifies `arrivals, `traffic, `inputBufOffset, `rxLen, `rxToken, `currentTok, `accepted, rxBuf
      modifies `txLen, `tx1Len, `deviceAddr, `sent, `sent1, `delivered
      modifies tx1Buf
      ensures Shape() && Shared() && Turned() && Grown() && tx1Buf[0] == old(tx1Buf[0])
      ensures tx1Buf[1..len + 3] == old(tx1Buf[1..1 + len]) + CrcBytes(old(tx1Buf[1..1 + len]))
      ensures arrivals == Later(old(arrivals), 2) && (Quiet(old(arrivals), 2) ==> Calm())
    {
      hide Shared, Turned, CrcBytes, Quiet, Later;
      ghost var was := tx1Buf[..];
      LaterMore(arrivals, 1, 1);
      var l, h := Crc1(len);
      Put1(1 + len, l);
      Put1(2 + len, h);
      assert tx1Buf[..] == was[1 + len := l][2 + len := h];
      assert was[1 + len := l][2 + len := h][1..len + 3] == was[1..1 + len] + [l, h];
    }

    /** `txStatus->len = len + 4`, and what may come right behind it. */
    method Publish1(len: nat)
      requires Shape() && Shared() && Turned() && 4 <= len <= 12
      modifies `arrivals, `traffic, `inputBufOffset, `rxLen, `rxToken, `currentTok, `accepted, rxBuf
      modifies `txLen, `tx1Len, `deviceAddr, `sent, `sent1, `delivered
      modifies `built1, `turned1
      ensures Shape() && Shared() && Grown() && !turned1
      ensures built1 == old(built1) + [tx1Buf[1..len - 1]]
      ensures Quiet(old(arrivals), 1) ==> Calm() && tx1Len == len
      ensures |old(arrivals)| > 0 && |old(arrivals)[0]| == 1 && Polls1(old(arrivals)[0][0], old(deviceAddr))
              && old(rxLen) == 0 ==>
                sent1 == old(sent1) + [tx1Buf[..len - 1]]
    {
      hide Shared, Polls1, Turned;
      MakeReady1(len);
      Interrupts();
    }

    method MakeReady1(len: nat)
      requires Shape() && Shared() && Turned() && 4 <= len <= 12
      modifies `tx1Len, `built1, `turned1
      ensures Shape() && Shared() && !turned1 && tx1Len == len && built1 == old(built1) + [tx1Buf[1..len - 1]]
    {
      hide Subsequence, Logged;
      hide RxValid, TxValid, Sent, Delivery, LockValid, AddressValid;
      built1 := built1 + [tx1Buf[1..len - 1]];
      tx1Len := len;
      turned1 := false;
    }

    /** IN tokens for endpoint 1 right behind the test and right behind the last assignment, and nothing else. */
    ghost predicate Races(len: nat)
      reads `rxLen, `tx1Len, `arrivals, `deviceAddr, `newDeviceAddr
    {
      var n := Slots(len);
      && Polled1() && |arrivals| >= n
      && Quiet(arrivals[1..n - 1], n - 2)
      && |arrivals[n - 1]| == 1 && Polls1(arrivals[n - 1][0], newDeviceAddr << 1)
    }

    /** usbSetInterrupt: called by the application between two polls. */
    method SetInterrupt(bytes: seq<bv8>, len: nat)
      requires Valid() && len <= 8 && len <= |bytes| && bytes != []
      modifies `arrivals, `traffic, `inputBufOffset, `rxLen, `rxToken, `currentTok, `accepted, rxBuf
      modifies `txLen, `tx1Len, `deviceAddr, `sent, `sent1, `delivered
      modifies `built1, `early, `turned1, tx1Buf
      ensures Valid() && Grown()
      ensures built1 == old(built1) + [bytes[..len] + CrcBytes(bytes[..len])]
      ensures tx1Buf[0] == NextToken1(old(tx1Len), old(tx1Buf[0]))
      ensures early == (old(early) || (old(rxLen) == 0 && !IsHandshake(old(tx1Len))))
      ensures Quiet(old(arrivals), Slots(len)) ==> Calm() && tx1Len == len + 4
      ensures old(Races(len)) ==>
                sent1 == old(sent1) + [old(Waiting1())]
                         + [[old(tx1Buf[0])] + (bytes[..len] + CrcBytes(bytes[..len]))]
    {
      hide Shared, Records, CrcBytes, Quiet, IsBody, Races, IsHandshake, NextToken1;
      SharedShape();
      GenericSetInterrupt(bytes, len);
      BodyBuilt(bytes[..len]);
    }

    /** usbGenericSetInterrupt. */
    method GenericSetInterrupt(bytes: seq<bv8>, len: nat)
      requires Shape() && Shared() && !turned1 && len <= 8 && len <= |bytes| && bytes != []
      modifies `arrivals, `traffic, `inputBufOffset, `rxLen, `rxToken, `currentTok, `accepted, rxBuf
      modifies `txLen, `tx1Len, `deviceAddr, `sent, `sent1, `delivered
      modifies `built1, `early, `turned1, tx1Buf
      ensures Shape() && Shared() && !turned1 && Grown()
      ensures built1 == old(built1) + [bytes[..len] + CrcBytes(bytes[..len])]
      ensures tx1Buf[0] == NextToken1(old(tx1Len), old(tx1Buf[0]))
      ensures early == (old(early) || (old(rxLen) == 0 && !IsHandshake(old(tx1Len))))
      ensures Quiet(old(arrivals), Slots(len)) ==> Calm() && tx1Len == len + 4
      ensures old(Races(len)) ==>
                sent1 == old(sent1) + [old(Waiting1())]
                         + [[old(tx1Buf[0])] + (bytes[..len] + CrcBytes(bytes[..len]))]
    {
      hide Shared, CrcBytes, Quiet, Later, Polls1, Turned, MayLeave1, Polled1, Races, IsHandshake, NextToken1;
      LaterMore(arrivals, Slots(len) - 1, 1);
      RacesMeans(len);
      MayLeave();
      Prepare1(bytes, len);
      Publish1(len + 4);
      TokenFirst(tx1Buf[..], len + 3);
    }

    lemma RacesMeans(len: nat)
      ensures Races(len) ==>
                && Polled1() && 4 <= tx1Len <= 12 && Quiet(Later(arrivals, 1), Slots(len) - 2)
                && |Later(arrivals, Slots(len) - 1)| > 0 && |Later(arrivals, Slots(len) - 1)[0]| == 1
                && Polls1(Later(arrivals, Slots(len) - 1)[0][0], newDeviceAddr << 1)
    {
      hide Polls1;
      if Races(len) { Gaps(arrivals, if len == 0 then 1 else len); }
    }

    /** Everything but the last assignment. */
    method Prepare1(bytes: seq<bv8>, len: nat)
      requires Shape() && Shared() && !turned1 && len <= 8 && len <= |bytes| && bytes != []
      modifies `arrivals, `traffic, `inputBufOffset, `rxLen, `rxToken, `currentTok, `accepted, rxBuf
      modifies `txLen, `tx1Len, `deviceAddr, `sent, `sent1, `delivered
      modifies `early, `turned1, tx1Buf
      ensures Shape() && Shared() && Turned() && Grown()
      ensures tx1Buf[0] == NextToken1(old(tx1Len), old(tx1Buf[0]))
      ensures tx1Buf[1..len + 3] == bytes[..len] + CrcBytes(bytes[..len])
      ensures early == (old(early) || old(MayLeave1()))
      ensures arrivals == Later(old(arrivals), Slots(len) - 1)
      ensures Quiet(old(arrivals), Slots(len) - 1) ==> Calm()
      ensures old(Polled1()) && Quiet(Later(old(arrivals), 1), Slots(len) - 2) ==>
                && rxLen == 0 && deviceAddr == newDeviceAddr << 1 && sent1 == old(sent1) + [old(Waiting1())]
                && tx1Buf[0] == old(tx1Buf[0])
    {
      hide Shared, CrcBytes, Quiet, Later, Turned, Polls1;
      ghost var copy: nat := if len == 0 then 1 else len;
      LaterMore(arrivals, 2, copy + 2);
      LaterMore(arrivals, 1, 1);
      LaterMore(Later(arrivals, 1), 1, copy + 2);
      Claim1();
      FillBody1(bytes, len);
    }

    /** Payload and CRC. */
    method FillBody1(bytes: seq<bv8>, len: nat)
      requires Shape() && Shared() && Turned() && len <= 8 && len <= |bytes| && bytes != []
      modifies `arrivals, `traffic, `inputBufOffset, `rxLen, `rxToken, `currentTok, `accepted, rxBuf
      modifies `txLen, `tx1Len, `deviceAddr, `sent, `sent1, `delivered
      modifies tx1Buf
      ensures Shape() && Shared() && Turned() && Grown() && tx1Buf[0] == old(tx1Buf[0])
      ensures tx1Buf[1..len + 3] == bytes[..len] + CrcBytes(bytes[..len])
      ensures var slots := (if len == 0 then 1 else len) + 2;
              arrivals == Later(old(arrivals), slots) && (Quiet(old(arrivals), slots) ==> Calm())
    {
      hide Shared, Turned, CrcBytes, Quiet, Later;
      LaterMore(arrivals, if len == 0 then 1 else len, 2);
      CopyLoop1(bytes, len);
      AppendCrc1(len);
    }

    /** The call that usbdrv.h suggests: `if(usbInterruptIsReady()) usbSetInterrupt(bytes, len)`.  What was sent stays
        sent, so the test still holds behind the gap, and the call is never early. */
    method SetIfReady(bytes: seq<bv8>, len: nat) returns (ready: bool)
      requires Valid() && len <= 8 && len <= |bytes| && bytes != []
      modifies `arrivals, `traffic, `inputBufOffset, `rxLen, `rxToken, `currentTok, `accepted, rxBuf
      modifies `txLen, `tx1Len, `deviceAddr, `sent, `sent1, `delivered
      modifies `built1, `early, `turned1, tx1Buf
      ensures Valid() && Grown() && early == old(early) && ready == IsHandshake(old(tx1Len))
      ensures built1 == old(built1) + if ready then [bytes[..len] + CrcBytes(bytes[..len])] else []
      ensures if ready then tx1Buf[0] == old(tx1Buf[0]) ^ (DATA0 ^ DATA1) else tx1Buf[..] == old(tx1Buf[..])
    {
      hide Valid, CrcBytes, IsHandshake;
      ValidShape();
      ready := IsHandshake(tx1Len);
      Between();
      if ready {
        SetInterrupt(bytes, len);
      }
    }

    /** A gap between two calls. */
    method Between()
      requires Valid()
      modifies `arrivals, `traffic, `inputBufOffset, `rxLen, `rxToken, `currentTok, `accepted, rxBuf
      modifies `txLen, `tx1Len, `deviceAddr, `sent, `sent1, `delivered
      ensures Valid() && Grown() && (IsHandshake(old(tx1Len)) ==> tx1Len == old(tx1Len))
    {
      hide Shared, Records, BuiltValid1, Gap;
      Interrupts();
    }

    lemma MayLeave()
      requires Shared()
      ensures MayLeave1() <==> rxLen == 0 && !IsHandshake(tx1Len)
    {
    }

    lemma ValidLeaves()
      requires Valid()
      ensures (deviceAddr & 1) == 0 && (MayLeave1() <==> rxLen == 0 && !IsHandshake(tx1Len))
    {
      hide Records, BuiltValid1;
      MayLeave();
    }

    // ---- whole runs

    constructor (app: App, arrivals: Schedule, configuration: bv8)
      ensures Valid() && accepted == processed == [] && built == sent == built1 == sent1 == [] && !served && !early
      ensures request == NoRequest && msgLen == USB_NO_MSG && reset1 == 0
      ensures tx1Buf[0] == DATA1 && IsHandshake(txLen) && IsHandshake(tx1Len) && rxLen == 0
      ensures deviceAddr == newDeviceAddr == 0
      ensures this.app == app && this.arrivals == arrivals && this.configuration == initial == configuration
      ensures fresh(rxBuf) && fresh(txBuf) && fresh(tx1Buf)
      ensures traffic == []
    {
      rxBuf, txBuf, tx1Buf := new bv8[22], new bv8[11], new bv8[11];
      inputBufOffset, rxLen, rxToken, currentTok, deviceAddr, newDeviceAddr := 0, 0, 0, 0, 0, 0;
      txLen, tx1Len, msgLen, userRw, msgPtr := USBPID_NAK, USBPID_NAK, USB_NO_MSG, false, Memory([]);
      calls := 0;
      this.app, this.arrivals, this.configuration := app, arrivals, configuration;
      traffic, accepted, processed, handled, locked, served := [], [], [], false, false, false;
      built, sent, built1, sent1, blocks, delivered, reply, toggles := [], [], [], [], [], [], [], 0;
      intact, reset1, turned1, early, request := true, 0, false, false, NoRequest;
      readLens, writeResults, initial := [], [], configuration;
      new;
      hide Valid;
      tx1Buf[0] := DATA1;
      PowerUp();
    }

    lemma PowerUp()
      requires Shape() && tx1Buf[0] == DATA1
      requires inputBufOffset == 0 && rxLen == 0 && deviceAddr == 0 && txLen == tx1Len == USBPID_NAK
      requires msgLen == USB_NO_MSG && !userRw && request == NoRequest && reply == []
      requires readLens == writeResults == [] && configuration == initial
      requires traffic == [] && accepted == processed == []
      requires built == sent == built1 == sent1 == blocks == delivered == []
      requires toggles == reset1 == 0 && intact && !handled && !locked && !served && !turned1
      ensures Valid()
    {
    }

    /** Any number of calls, in any order, with packets arriving anywhere in them. */
    method Run(work: seq<Work>)
      requires Valid()
      requires forall w <- work :: Callable(w)
      modifies `arrivals, `traffic, `inputBufOffset, `rxLen, `rxToken, `currentTok, `accepted, rxBuf
      modifies `txLen, `tx1Len, `deviceAddr, `sent, `sent1, `delivered
      modifies `newDeviceAddr, `configuration, `msgPtr, `calls, `userRw, `msgLen, `reset1, txBuf, tx1Buf
      modifies `served, `intact, `locked, `blocks, `toggles, `reply, `request, `readLens, `writeResults
      modifies `processed, `handled, `built, `built1, `early, `turned1
      ensures Valid() && Grown() && old(processed) <= processed
      ensures old(built) <= built && old(built1) <= built1 && (old(early) ==> early)
      ensures |old(built1)| + Interrupting(work, false) <= |built1| <= |old(built1)| + Interrupting(work, true)
      ensures NoneSetup(processed, |old(processed)|) ==>
                && request == old(request) && served == old(served) && reply == old(reply) && userRw == old(userRw)
                && old(writeResults) <= writeResults && old(readLens) <= readLens
      ensures NoneResets(processed, |old(processed)|) ==> reset1 == old(reset1)
      ensures Guarded(work) ==> early == old(early)
    {
      hide Valid, CrcBytes, IsSetup, ResetsToggle;
      assert work[..0] == [] && work[..|work|] == work;
      for i := 0 to |work|
        invariant Valid() && Grown() && old(processed) <= processed
        invariant old(built) <= built && old(built1) <= built1 && (old(early) ==> early)
        invariant |old(built1)| + Interrupting(work[..i], false) <= |built1|
        invariant |built1| <= |old(built1)| + Interrupting(work[..i], true)
        invariant NoneSetup(processed, |old(processed)|) ==>
                    request == old(request) && old(writeResults) <= writeResults && old(readLens) <= readLens
        invariant NoneResets(processed, |old(processed)|) ==> reset1 == old(reset1)
        invariant Guarded(work) ==> early == old(early)
      {
        assert work[..i + 1][..i] == work[..i];
        Step(work[i]);
      }
      SameTransfer();
    }

    /** One call. */
    method Step(w: Work)
      requires Valid() && Callable(w)
      modifies `arrivals, `traffic, `inputBufOffset, `rxLen, `rxToken, `currentTok, `accepted, rxBuf
      modifies `txLen, `tx1Len, `deviceAddr, `sent, `sent1, `delivered
      modifies `newDeviceAddr, `configuration, `msgPtr, `calls, `userRw, `msgLen, `reset1, txBuf, tx1Buf
      modifies `served, `intact, `locked, `blocks, `toggles, `reply, `request, `readLens, `writeResults
      modifies `processed, `handled, `built, `built1, `early, `turned1
      ensures Valid() && Grown() && old(processed) <= processed && |processed| <= |old(processed)| + 1
      ensures old(built) <= built && old(built1) <= built1
      ensures |built1| == |old(built1)| || (|built1| == |old(built1)| + 1 && !w.PollBus?)
      ensures w.SetInterrupt? ==> |built1| == |old(built1)| + 1
      ensures if w.SetInterrupt? then old(early) ==> early else early == old(early)
      ensures processed == old(processed) || !IsSetup(processed[|processed| - 1]) ==>
                request == old(request) && old(writeResults) <= writeResults && old(readLens) <= readLens
      ensures processed == old(processed) || !ResetsToggle(processed[|processed| - 1]) ==> reset1 == old(reset1)
    {
      hide Valid, CrcBytes, IsSetup, ResetsToggle, NextToken1, Races, Quiet, IsHandshake;
      match w
      case PollBus(reset) => PollStep(reset);
      case SetInterrupt(bytes, len) => SetInterrupt(bytes, len);
      case SetIfReady(bytes, len) => var _ := SetIfReady(bytes, len);
    }

    method PollStep(reset: bool)
      requires Valid()
      modifies `arrivals, `traffic, `inputBufOffset, `rxLen, `rxToken, `currentTok, `accepted, rxBuf
      modifies `txLen, `tx1Len, `deviceAddr, `sent, `sent1, `delivered
      modifies `newDeviceAddr, `configuration, `msgPtr, `calls, `userRw, `msgLen, `reset1, txBuf, tx1Buf
      modifies `served, `intact, `locked, `blocks, `toggles, `reply, `request, `readLens, `writeResults
      modifies `processed, `handled, `built
      ensures Valid() && Grown() && old(built) <= built
      ensures old(processed) <= processed && |processed| <= |old(processed)| + 1
      ensures processed == old(processed) || !IsSetup(processed[|processed| - 1]) ==>
                request == old(request) && old(writeResults) <= writeResults && old(readLens) <= readLens
      ensures processed == old(processed) || !ResetsToggle(processed[|processed| - 1]) ==> reset1 == old(reset1)
    {
      hide Valid, IsSetup, ResetsToggle, Standard, NextBlock, PacketOf, Chunk, Starts, Remaining, Start, Follows, State;
      hide Now, IsHandshake, Stored;
      ValidShape();
      Poll(reset);
      if processed != old(processed) {
        FollowsFacts(processed[|processed| - 1]);
      }
    }

    /** What holds at the end of every run.  Each accepted packet has been passed to usbProcessRx once, in order and
        unmodified, but for at most one that waits.  Every packet sent on either endpoint is complete, and was built for
        it; packets are sent in the order in which they were built, and each once at most.  In a control-in transfer
        without a stall the host has received the first packets built, with the tokens due; if it is served from
        usbMsgPtr, they are the first ones of the transfer, and all of it once the driver has nothing left to send. */
    lemma Safety()
      requires Valid()
      ensures processed <= accepted && |accepted| <= |processed| + 1
      ensures Subsequence(sent, built) && forall p <- sent :: DataPacket(p)
      ensures Subsequence(Bodies(sent1), built1) && forall p <- sent1 :: DataPacket(p)
      ensures intact ==> delivered <= blocks && |blocks| <= |delivered| + 1 && Tokened(delivered)
      ensures served ==> intact && delivered <= Transfer(reply)
      ensures served && msgLen == USB_NO_MSG && IsHandshake(txLen) ==> delivered == Transfer(reply)
    {
      hide DataPacket, PacketOf, Subsequence, IsBody, Tokened, Packets;
      SentComplete();
      SentComplete1();
      SentForTransfer();
    }

    /** What Safety says about a transfer, in terms of the SETUP: if it is answered by bytes at usbMsgPtr, the host has
        received the first packets of them, as far as it has asked for them, and all once there is nothing left to
        send. */
    lemma ServedTransfer(bytes: Served)
      requires Valid() && request.Request? && AnswerTo(app, request) == Serve(bytes)
      ensures intact && delivered <= Transfer(Limited(bytes, request.setup))
      ensures msgLen == USB_NO_MSG && IsHandshake(txLen) ==>
                && delivered == Transfer(Limited(bytes, request.setup))
                && LongEnough(delivered) && WellSequenced(delivered)
                && Received(delivered) == Limited(bytes, request.setup)
    {
      hide Shared, MsgValid, BuiltValid, BuiltValid1, Supplied, AnswerTo, Packets, WellSequenced;
      Safety();
      TransferReassembles(Limited(bytes, request.setup));
    }

    /** The same for a transfer that the application supplies, while it is neither stalled nor interrupted by another
        packet from the host: block after block of what usbFunctionRead returns.  An application that returns what it
        says gets all of it across, as far as the low byte of wLength asks for it; but if that byte is 255, nothing is
        sent at all. */
    lemma SuppliedTransfer()
      requires Valid() && userRw && intact && Alone()
      ensures request.Request? && AnswerTo(app, request) == UserRw
      ensures delivered <= AppPackets(app, Start(request), |blocks|)
      ensures IsHandshake(txLen) ==> delivered == AppPackets(app, Start(request), |blocks|)
      ensures Requested(request.setup) == USB_NO_MSG ==> delivered == []
      ensures Requested(request.setup) < USB_NO_MSG && Truthful(app) && msgLen == USB_NO_MSG && IsHandshake(txLen) ==>
                && LongEnough(delivered) && WellSequenced(delivered)
                && Received(delivered) == Supply(app, request.calls + 1, Requested(request.setup))
    {
      hide BuiltValid, BuiltValid1, Packets, WellSequenced, Truthful, Supply, NextCourse, NextBlock, AppPackets;
      hide Requested;
      hide RxValid, TxValid, Tx1Valid, Sent, Sent1, LockValid, Toggled1, AddressValid, Logged, Tokened, Pending;
      var start := Start(request);
      if |blocks| > 0 { assert CourseAfter(app, start, 0).left < USB_NO_MSG; }
      if start.left < USB_NO_MSG && Truthful(app) && msgLen == USB_NO_MSG && IsHandshake(txLen) {
        var data := Supply(app, start.calls, start.left);
        SupplyIsTransferred(app, start);
        assert |blocks| == |data| / 8 + 1;
        TransferReassembles(data);
      }
    }

    /** An application that never claims more than eight bytes is not stalled. */
    lemma ModestIntact()
      requires Valid() && userRw && Alone() && Modest(app)
      ensures intact
    {
    }

    /** With one result that completes the data, and one packet begun, that is the one; before the first packet, the
        buffer is free unless the data have been refused. */
    lemma DataBegun()
      requires Valid() && TakesData()
      ensures toggles > 0 && Finals(writeResults) == 1 ==> msgLen != 0
      ensures Finals(writeResults) == 0 && 0xff !in writeResults ==> IsHandshake(txLen) && |built| == request.begun
      ensures Finals(writeResults) == 0 ==> toggles == 0 && msgLen == USB_NO_MSG
    {
      hide BuiltValid, BuiltValid1, TransferValid, Supplied, Finals, PacketOf, Packets, Pending, Tokened;
      hide RxValid, Tx1Valid, Sent, Sent1, Toggled1, AddressValid, Logged, Subsequence;
    }

    /** What has been built for a request whose data the application takes. */
    lemma DataTaken(was: seq<seq<bv8>>)
      requires Valid() && TakesData() && request.begun == |was| && was <= built
      ensures readLens == [] && (msgLen == USB_NO_MSG || msgLen == 0)
      ensures Finals(writeResults) == 0 ==> built == was && msgLen == USB_NO_MSG
      ensures Finals(writeResults) > 0 && msgLen != 0 && 0xff !in writeResults ==> was + [PacketOf(DATA1, [])] <= built
      ensures Finals(writeResults) == 1 && msgLen != 0 && 0xff !in writeResults ==>
                built == was + [PacketOf(DATA1, [])]
    {
      hide Shared, BuiltValid, BuiltValid1, TransferValid, Supplied, Finals, PacketOf, Packets, Pending, Tokened;
      assert built == was + blocks;
      if toggles > 0 && intact { assert EmptyPackets(toggles)[0] == PacketOf(TokenAt(0), []); }
    }

    /** A control-in transfer from the SETUP in the receive buffer through any run without another one: what the host
        has received at its end. */
    method RunControlIn(reset: bool, work: seq<Work>)
      requires Valid() && rxLen != 0 && IsSetup(Accepted(rxToken, Stored()))
      requires forall w <- work :: Callable(w)
      modifies `arrivals, `traffic, `inputBufOffset, `rxLen, `rxToken, `currentTok, `accepted, rxBuf
      modifies `txLen, `tx1Len, `deviceAddr, `sent, `sent1, `delivered
      modifies `newDeviceAddr, `configuration, `msgPtr, `calls, `userRw, `msgLen, `reset1, txBuf, tx1Buf
      modifies `served, `intact, `locked, `blocks, `toggles, `reply, `request, `readLens, `writeResults
      modifies `processed, `handled, `built, `built1, `early, `turned1
      ensures Valid() && old(processed) + [Accepted(old(rxToken), old(Stored()))] <= processed
      ensures processed == old(processed) + [Accepted(old(rxToken), old(Stored()))] && intact ==>
                var setup := old(Stored())[1..9];
                var start := Course(old(calls) + 1, Requested(setup), old(Rest()));
                SetupReply(app, old(calls), old(configuration), setup) == UserRw ==>
                  && delivered <= AppPackets(app, start, |blocks|)
                  && (Truthful(app) && start.left < USB_NO_MSG && msgLen == USB_NO_MSG && IsHandshake(txLen) ==>
                        && LongEnough(delivered) && WellSequenced(delivered)
                        && Received(delivered) == Supply(app, start.calls, start.left))
      ensures var setup := old(Stored())[1..9];
              var answer := SetupReply(app, old(calls), old(configuration), setup);
              NoneSetup(processed, |old(processed)| + 1) && answer.Serve? ==>
                && delivered <= Transfer(Limited(answer.bytes, setup))
                && (msgLen == USB_NO_MSG && IsHandshake(txLen) ==>
                      && LongEnough(delivered) && WellSequenced(delivered)
                      && Received(delivered) == Limited(answer.bytes, setup))
    {
      hide Valid, SetupReply, Limited, Packets, WellSequenced, Requested, Truthful, Supply, AppPackets, PacketOf, Chunk;
      hide NextBlock, NextCourse, Callable;
      ValidShape();
      Poll(reset);
      Run(work);
      ghost var setup := old(Stored())[1..9];
      ghost var answer := SetupReply(app, old(calls), old(configuration), setup);
      if NoneSetup(processed, |old(processed)| + 1) {
        if answer.Serve? {
          ServedTransfer(answer.bytes);
        } else if |processed| == |old(processed)| + 1 && intact {
          SuppliedBy();
          SuppliedTransfer();
        }
      }
    }

    lemma SuppliedBy()
      requires Valid() && request.Request?
      ensures |request.setup| == 8 && userRw == AnswerTo(app, request).UserRw?
    {
      hide Shared, MsgValid, BuiltValid, BuiltValid1, Supplied, AnswerTo;
    }

    /** If every call of usbSetInterrupt is guarded by usbInterruptIsReady, the tokens on the interrupt endpoint
        alternate, whatever arrives and when, as long as the host does not reset the toggle. */
    method RunGuarded(work: seq<Work>)
      requires Valid() && !early && Guarded(work)
      requires forall w <- work :: Callable(w)
      modifies `arrivals, `traffic, `inputBufOffset, `rxLen, `rxToken, `currentTok, `accepted, rxBuf
      modifies `txLen, `tx1Len, `deviceAddr, `sent, `sent1, `delivered
      modifies `newDeviceAddr, `configuration, `msgPtr, `calls, `userRw, `msgLen, `reset1, txBuf, tx1Buf
      modifies `served, `intact, `locked, `blocks, `toggles, `reply, `request, `readLens, `writeResults
      modifies `processed, `handled, `built, `built1, `early, `turned1
      ensures Valid() && !early && old(sent1) <= sent1 && old(reset1) <= |old(sent1)|
      ensures NoneResets(processed, |old(processed)|) ==>
                && reset1 == old(reset1)
                && Alternate(sent1[old(reset1)..]) && Alternate(sent1[|old(sent1)|..])
    {
      hide Valid, Alternate, ResetsToggle;
      TokensAlternate();
      Run(work);
      TokensAlternate();
      if NoneResets(processed, |old(processed)|) {
        AlternateLater(sent1, reset1, |old(sent1)|);
      }
    }

    lemma SentComplete()
      requires Sent() && BuiltValid()
      ensures Subsequence(sent, built) && forall p <- sent :: DataPacket(p)
    {
      hide DataPacket;
      GoneMore(txLen, USBPID_NAK, sent, built);
      forall p <- sent ensures DataPacket(p) { SubsequenceIn(sent, built, p); }
    }

    lemma SentComplete1()
      requires Sent1() && BuiltValid1()
      ensures Subsequence(Bodies(sent1), built1) && forall p <- sent1 :: DataPacket(p)
    {
      hide DataPacket, IsBody, Subsequence;
      GoneMore(tx1Len, USBPID_NAK, Bodies(sent1), built1);
      forall p <- sent1 ensures DataPacket(p) {
        var i :| 0 <= i < |sent1| && sent1[i] == p;
        assert Bodies(sent1)[i] == p[1..];
        SubsequenceIn(Bodies(sent1), built1, p[1..]);
        BodyIsPacket(p);
      }
    }

    lemma SentForTransfer()
      requires Shape() && Delivery() && MsgValid()
      ensures intact ==> delivered <= blocks && |blocks| <= |delivered| + 1 && Tokened(delivered)
      ensures served ==> intact && delivered <= Transfer(reply)
      ensures served && msgLen == USB_NO_MSG && IsHandshake(txLen) ==> delivered == Transfer(reply)
    {
      hide PacketOf, Packets, TokenAt, Pending;
      if served {
        PacketsPrefix(reply, toggles, |reply| / 8 + 1);
      }
    }

    /** If usbSetInterrupt has only been called when the last packet had left endpoint 1, or a received packet held it
        back, the tokens there alternate, since the last reset of the toggle, whatever has arrived and when. */
    lemma TokensAlternate()
      requires Valid() && !early
      ensures reset1 <= |sent1| && Alternate(sent1[reset1..])
    {
    }
  }

  /** The address comparison and the endpoint number. */
  method Address(b1: bv8, b2: bv8, deviceAddr: bv8) returns (endpoint: bv8, other: bool)
    ensures other <==> !ForDevice(b1, deviceAddr)
    ensures endpoint == Endpoint(b1, b2)
  {
    var x2, carry := b1 << 1, b1 >= 0x80;
    other := x2 != deviceAddr;
    var x3 := (b2 << 1) | (if carry then 1 else 0);
    endpoint := x3 & 0xf;
  }
}
