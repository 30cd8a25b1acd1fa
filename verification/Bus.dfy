/** What the device does with the packets of section 8.4 of USB 2.0, in terms of what is in them: addresses, endpoint
    numbers, payloads. */
module Bus {
  import opened Line
  import opened Reception
  import opened Crc16
  import opened ControlTransfer
  import opened UsbProtocol
  import opened UsbDevice
  import RoundTrip

  /** A packet identifier: four bits of type, and their complement (section 8.3.1). */
  function Pid(kind: bv8): bv8 { (kind & 0xf) | ((0xf - (kind & 0xf)) << 4) }

  /** The codes of table 8-1. */
  lemma PidCodes()
    ensures USBPID_OUT == Pid(0x1) && USBPID_IN == Pid(0x9) && USBPID_SETUP == Pid(0xd)
    ensures DATA0 == Pid(0x3) && DATA1 == Pid(0xb)
    ensures USBPID_ACK as bv8 == Pid(0x2) && USBPID_NAK as bv8 == Pid(0xa) && USBPID_STALL as bv8 == Pid(0xe)
    ensures forall kind: bv8 :: RoundTrip.WellFormedPid(Pid(kind))
  {
  }

  // ---- data packets

  /** Every data packet is received as it is. */
  lemma DataArrives(line: nat -> bv8, token: bv8, payload: seq<bv8>)
    requires (token == 0xc3 || token == 0x4b) && |payload| <= 8
    requires RoundTrip.Transmission(line, PacketOf(token, payload))
    ensures Receive165(line) == Packet(PacketOf(token, payload))
  {
    hide RoundTrip.Transmission, Receive165, Receive20, CrcBytes;
    var packet := PacketOf(token, payload);
    assert packet[0] == token;
    RoundTrip.RoundTripPid(line, packet);
  }

  /** A data packet of up to eight bytes with either token, on any line that carries it.  Behind a SETUP or OUT token,
      and with the buffer free, it is acknowledged; with a payload it is stored as it is, with that token, and an empty
      one is not.  While a packet waits, it is answered by NAK and not stored; without a token before it, it is
      ignored. */
  method HearData(d: Device, line: nat -> bv8, token: bv8, payload: seq<bv8>) returns (reply: Reply)
    requires d.Shared() && (token == 0xc3 || token == 0x4b) && |payload| <= 8
    requires RoundTrip.Transmission(line, PacketOf(token, payload))
    modifies d, d.rxBuf
    ensures d.Shared() && d.traffic == old(d.traffic) + [Exchange(line, reply)]
    ensures d.currentTok == old(d.currentTok) && d.deviceAddr == old(d.deviceAddr)
    ensures d.sent == old(d.sent) && d.sent1 == old(d.sent1)
    ensures old(d.currentTok) == 0 ==> reply == Silent
    ensures old(d.currentTok) != 0 && old(d.rxLen) != 0 ==> reply == Handshake(0x5a)
    ensures old(d.currentTok) != 0 && old(d.rxLen) == 0 ==> reply == Handshake(0xd2)
    ensures if old(d.currentTok) != 0 && old(d.rxLen) == 0 && payload != [] then
              && d.accepted == old(d.accepted) + [Accepted(old(d.currentTok), PacketOf(token, payload))]
              && d.rxLen == |payload| + 3
            else d.accepted == old(d.accepted) && d.rxLen == old(d.rxLen)
  {
    hide Device.Shared, Receive165, RoundTrip.Transmission, CrcBytes;
    DataArrives(line, token, payload);
    reply := d.Interrupt(line);
  }

  // ---- token packets

  /** A token packet: seven bits of address, four of endpoint number, five of CRC (section 8.4.1). */
  function TokenPacket(pid: bv8, addr: bv8, ep: bv8, crc: bv8): (packet: seq<bv8>) {
    [pid, addr + 128 * (ep % 2), ep / 2 + 8 * crc]
  }

  /** The comparison is with the device's address, and the endpoint number is the one in the packet, whatever the CRC
      is. */
  lemma TokenFields(pid: bv8, addr: bv8, ep: bv8, crc: bv8, own: bv8)
    requires addr < 128 && ep < 16 && crc < 32 && own < 128
    ensures var packet := TokenPacket(pid, addr, ep, crc);
            && |packet| == 3 && packet[0] == pid
            && (ForDevice(packet[1], own << 1) <==> addr == own)
            && Endpoint(packet[1], packet[2]) == ep
  {
  }

  lemma OwnAddress(deviceAddr: bv8)
    requires (deviceAddr & 1) == 0
    ensures (deviceAddr >> 1) < 128 && (deviceAddr >> 1) << 1 == deviceAddr
  {
  }

  lemma TokenArrives(line: nat -> bv8, pid: bv8, addr: bv8, ep: bv8, crc: bv8)
    requires Announces(pid) || pid == 0x69
    requires RoundTrip.Transmission(line, TokenPacket(pid, addr, ep, crc))
    ensures Receive165(line) == Packet(TokenPacket(pid, addr, ep, crc))
  {
    hide RoundTrip.Transmission, Receive165, Receive20;
    RoundTrip.RoundTripPid(line, TokenPacket(pid, addr, ep, crc));
  }

  /** SETUP and OUT. */
  predicate Announces(pid: bv8) { pid == 0x2d || pid == 0xe1 }

  lemma PidKinds(pid: bv8)
    requires Announces(pid) || pid == 0x69
    ensures !IsDataToken(pid) && (pid == USBPID_IN <==> pid == 0x69)
    ensures Announces(pid) ==> TokenToKeep(pid) == pid != USBPID_IN
  {
  }

  /** What arrives, and what the interrupt routine makes of its fields. */
  lemma TokenFacts(line: nat -> bv8, deviceAddr: bv8, pid: bv8, addr: bv8, ep: bv8, crc: bv8)
    requires addr < 128 && ep < 16 && crc < 32 && (deviceAddr & 1) == 0 && (Announces(pid) || pid == 0x69)
    requires RoundTrip.Transmission(line, TokenPacket(pid, addr, ep, crc))
    ensures var packet := TokenPacket(pid, addr, ep, crc);
            && Receive165(line) == Packet(packet) && |packet| == 3 && packet[0] == pid
            && (ForDevice(packet[1], deviceAddr) <==> addr == deviceAddr >> 1)
            && Endpoint(packet[1], packet[2]) == ep && !IsDataToken(pid)
  {
    hide RoundTrip.Transmission, Receive165, TokenPacket, ForDevice, Endpoint;
    OwnAddress(deviceAddr);
    TokenFields(pid, addr, ep, crc, deviceAddr >> 1);
    TokenArrives(line, pid, addr, ep, crc);
    PidKinds(pid);
  }

  /** What an endpoint has in its buffer: a handshake, or a packet. */
  ghost predicate Answers(reply: Reply, len: nat, buffer: seq<bv8>) {
    if (len / 16) % 2 == 1 then reply == Handshake(len)
    else 1 <= len <= |buffer| + 1 && reply == Data(buffer[..len - 1])
  }

  /** What has gone from the buffers: the packet sent, if any, which makes a new address effective. */
  twostate predicate Gone(d: Device, reply: Reply, ep: bv8)
    reads d
  {
    if reply.Data? then
      && d.deviceAddr >> 1 == d.newDeviceAddr & 0x7f
      && d.txLen == (if ep == 0 then 0x5a else old(d.txLen))
      && d.tx1Len == (if ep == 0 then old(d.tx1Len) else 0x5a)
      && d.sent == old(d.sent) + (if ep == 0 then [reply.packet] else [])
      && d.sent1 == old(d.sent1) + (if ep == 0 then [] else [reply.packet])
    else
      && d.deviceAddr == old(d.deviceAddr) && d.txLen == old(d.txLen) && d.tx1Len == old(d.tx1Len)
      && d.sent == old(d.sent) && d.sent1 == old(d.sent1)
  }

  /** What is answered to an IN token for one of its endpoints. */
  twostate predicate AnswersIn(d: Device, reply: Reply, ep: bv8)
  {
    if old(d.rxLen) != 0 then reply == Handshake(0x5a)
    else if ep == 0 then Answers(reply, old(d.txLen), old(d.txBuf[..]))
    else Answers(reply, old(d.tx1Len), old(d.tx1Buf[..]))
  }

  /** A token for another device is not answered, and the next data packet is not for this one. */
  method HearForeign(d: Device, line: nat -> bv8, pid: bv8, addr: bv8, ep: bv8, crc: bv8) returns (reply: Reply)
    requires d.Shared() && addr < 128 && ep < 16 && crc < 32
    requires RoundTrip.Transmission(line, TokenPacket(pid, addr, ep, crc))
    requires (Announces(pid) || pid == 0x69) && addr != d.deviceAddr >> 1
    modifies d, d.rxBuf
    ensures d.Shared() && d.traffic == old(d.traffic) + [Exchange(line, reply)]
    ensures d.accepted == old(d.accepted) && d.rxLen == old(d.rxLen) && d.newDeviceAddr == old(d.newDeviceAddr)
    ensures reply == Silent && d.currentTok == 0 && Gone(d, reply, ep)
  {
    hide Device.Shared, Receive165, RoundTrip.Transmission, ForDevice, Endpoint, IsDataToken, TokenToKeep;
    hide TokenPacket, Announces, DataReply, Stores, Device.Left, Device.Offer;
    BufferFacts(d);
    TokenFacts(line, d.deviceAddr, pid, addr, ep, crc);
    reply := d.Interrupt(line);
  }

  /** SETUP and OUT for this device announce a data packet. */
  method HearAnnounced(d: Device, line: nat -> bv8, pid: bv8, addr: bv8, ep: bv8, crc: bv8) returns (reply: Reply)
    requires d.Shared() && addr < 128 && ep < 16 && crc < 32
    requires RoundTrip.Transmission(line, TokenPacket(pid, addr, ep, crc))
    requires Announces(pid) && addr == d.deviceAddr >> 1
    modifies d, d.rxBuf
    ensures d.Shared() && d.traffic == old(d.traffic) + [Exchange(line, reply)]
    ensures d.accepted == old(d.accepted) && d.rxLen == old(d.rxLen) && d.newDeviceAddr == old(d.newDeviceAddr)
    ensures reply == Silent && d.currentTok == pid && Gone(d, reply, ep)
  {
    hide Device.Shared, Receive165, RoundTrip.Transmission, ForDevice, Endpoint, IsDataToken, TokenToKeep;
    hide TokenPacket, Announces;
    BufferFacts(d);
    PidKinds(pid);
    TokenFacts(line, d.deviceAddr, pid, addr, ep, crc);
    reply := d.Interrupt(line);
  }

  /** IN for this device is answered by NAK while a received packet waits, and otherwise by what endpoint 0, or for any
      other number the interrupt endpoint, has in its buffer; a data packet is then gone from there, and makes a new
      address effective. */
  method HearIn(d: Device, line: nat -> bv8, addr: bv8, ep: bv8, crc: bv8) returns (reply: Reply)
    requires d.Shared() && addr < 128 && ep < 16 && crc < 32
    requires RoundTrip.Transmission(line, TokenPacket(0x69, addr, ep, crc))
    requires addr == d.deviceAddr >> 1
    modifies d, d.rxBuf
    ensures d.Shared() && d.traffic == old(d.traffic) + [Exchange(line, reply)]
    ensures d.accepted == old(d.accepted) && d.rxLen == old(d.rxLen) && d.newDeviceAddr == old(d.newDeviceAddr)
    ensures d.currentTok == old(d.currentTok) && AnswersIn(d, reply, ep) && Gone(d, reply, ep)
  {
    hide Device.Shared, Receive165, RoundTrip.Transmission, ForDevice, Endpoint, IsDataToken, TokenToKeep;
    hide TokenPacket, Announces;
    BufferFacts(d);
    PidKinds(0x69);
    TokenFacts(line, d.deviceAddr, 0x69, addr, ep, crc);
    NewAddress(d.newDeviceAddr);
    reply := d.Interrupt(line);
  }

  /** A token on any line that carries it, whatever its CRC. */
  method HearToken(d: Device, line: nat -> bv8, pid: bv8, addr: bv8, ep: bv8, crc: bv8) returns (reply: Reply)
    requires d.Shared() && addr < 128 && ep < 16 && crc < 32 && (Announces(pid) || pid == 0x69)
    requires RoundTrip.Transmission(line, TokenPacket(pid, addr, ep, crc))
    modifies d, d.rxBuf
    ensures d.Shared() && d.traffic == old(d.traffic) + [Exchange(line, reply)]
    ensures d.accepted == old(d.accepted) && d.rxLen == old(d.rxLen) && d.newDeviceAddr == old(d.newDeviceAddr)
    ensures addr != old(d.deviceAddr) >> 1 ==> reply == Silent && d.currentTok == 0
    ensures addr == old(d.deviceAddr) >> 1 && pid != 0x69 ==> reply == Silent && d.currentTok == pid
    ensures addr == old(d.deviceAddr) >> 1 && pid == 0x69 ==>
              d.currentTok == old(d.currentTok) && AnswersIn(d, reply, ep)
    ensures Gone(d, reply, ep)
  {
    hide Device.Shared, RoundTrip.Transmission, TokenPacket;
    if addr != d.deviceAddr >> 1 {
      reply := HearForeign(d, line, pid, addr, ep, crc);
    } else if pid != 0x69 {
      reply := HearAnnounced(d, line, pid, addr, ep, crc);
    } else {
      reply := HearIn(d, line, addr, ep, crc);
    }
  }

  lemma NewAddress(a: bv8)
    ensures (a << 1) >> 1 == a & 0x7f
  {
  }

  lemma BufferFacts(d: Device)
    requires d.Shared()
    ensures d.Shape() && (d.deviceAddr & 1) == 0
    ensures IsHandshake(d.tx1Len) || 4 <= d.tx1Len <= 12
    ensures d.rxLen == 0 ==> IsHandshake(d.txLen) || 4 <= d.txLen <= 12
  {
  }

  // ---- transactions

  /** A SETUP or OUT transaction of this device with one to eight bytes is stored with its token when the buffer is
      free; one of another device is not stored. */
  method HearTransaction(d: Device, tokenLine: nat -> bv8, dataLine: nat -> bv8, pid: bv8, addr: bv8, ep: bv8, crc: bv8,
      token: bv8, payload: seq<bv8>) returns (reply: Reply)
    requires d.Shared() && addr < 128 && ep < 16 && crc < 32 && Announces(pid)
    requires (token == 0xc3 || token == 0x4b) && 1 <= |payload| <= 8
    requires RoundTrip.Transmission(tokenLine, TokenPacket(pid, addr, ep, crc))
    requires RoundTrip.Transmission(dataLine, PacketOf(token, payload))
    modifies d, d.rxBuf
    ensures d.Shared() && d.deviceAddr == old(d.deviceAddr)
    ensures addr != old(d.deviceAddr) >> 1 ==> reply == Silent && d.accepted == old(d.accepted)
    ensures addr == old(d.deviceAddr) >> 1 && old(d.rxLen) != 0 ==>
              reply == Handshake(0x5a) && d.accepted == old(d.accepted)
    ensures addr == old(d.deviceAddr) >> 1 && old(d.rxLen) == 0 ==>
              && reply == Handshake(0xd2) && d.rxLen == |payload| + 3
              && d.accepted == old(d.accepted) + [Accepted(pid, PacketOf(token, payload))]
  {
    hide Device.Shared, RoundTrip.Transmission, CrcBytes;
    var _ := HearToken(d, tokenLine, pid, addr, ep, crc);
    reply := HearData(d, dataLine, token, payload);
  }

  // ---- whole runs

  /** At the end of every run: each data packet with a payload that has been acknowledged is stored, behind those that
      were acknowledged before. */
  lemma AcknowledgedIsStored(d: Device, i: nat, token: bv8, payload: seq<bv8>)
    requires d.Valid() && i < |d.traffic| && (token == 0xc3 || token == 0x4b) && 1 <= |payload| <= 8
    requires RoundTrip.Transmission(d.traffic[i].line, PacketOf(token, payload))
    requires d.traffic[i].reply == Handshake(0xd2)
    ensures var k := |AckedPackets(d.traffic[..i])|;
            k < |d.accepted| && d.accepted[k].packet == PacketOf(token, payload)
  {
    hide RoundTrip.Transmission, Receive165, CrcBytes, AckedPackets, PacketsOf;
    hide Device.Inside, Device.Records, Device.BuiltValid1;
    assert PacketOf(token, payload)[0] == token;
    DataArrives(d.traffic[i].line, token, payload);
    AckedAt(d.traffic, |d.traffic|, i);
    assert d.traffic[..|d.traffic|] == d.traffic;
    PacketAt(d.accepted, |AckedPackets(d.traffic[..i])|);
  }

  lemma PacketAt(accepted: seq<Accepted>, k: nat)
    requires k < |PacketsOf(accepted)|
    ensures k < |accepted| && PacketsOf(accepted)[k] == accepted[k].packet
  {
  }

  lemma {:induction false} AckedAt(traffic: seq<Exchange>, n: nat, i: nat)
    requires i < n <= |traffic| && Acknowledged(traffic[i])
    ensures var k := |AckedPackets(traffic[..i])|;
            k < |AckedPackets(traffic[..n])| && AckedPackets(traffic[..n])[k] == Receive165(traffic[i].line).bytes
    decreases n
  {
    hide Receive165;
    assert traffic[..n][..n - 1] == traffic[..n - 1];
    if i < n - 1 { AckedAt(traffic, n - 1, i); }
  }

  /** And the other way round: what is stored was a data packet on the bus, and was acknowledged. */
  lemma StoredWasAcknowledged(d: Device, k: nat) returns (i: nat)
    requires d.Valid() && k < |d.accepted|
    ensures i < |d.traffic| && d.traffic[i].reply == Handshake(0xd2)
    ensures Receive165(d.traffic[i].line) == Packet(d.accepted[k].packet)
    ensures |d.accepted[k].packet| >= 4 && (d.accepted[k].packet[0] == 0xc3 || d.accepted[k].packet[0] == 0x4b)
  {
    hide Receive165, AckedPackets, PacketsOf, Device.Inside, Device.Records, Device.BuiltValid1;
    PacketAt(d.accepted, k);
    i := FromAcked(d.traffic, k);
  }

  lemma {:induction false} FromAcked(traffic: seq<Exchange>, k: nat) returns (i: nat)
    requires k < |AckedPackets(traffic)|
    ensures i < |traffic| && Acknowledged(traffic[i]) && AckedPackets(traffic)[k] == Receive165(traffic[i].line).bytes
    decreases |traffic|
  {
    hide Acknowledged, Receive165;
    var n := |traffic| - 1;
    if k < |AckedPackets(traffic[..n])| { i := FromAcked(traffic[..n], k); } else { i := n; }
  }
}
