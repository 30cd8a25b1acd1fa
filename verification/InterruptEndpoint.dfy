/** The race of usbSetInterrupt with the interrupt routine: packets on the bus that make two packets in a row leave the
    interrupt endpoint with the same token. */
module InterruptEndpoint {
  import opened Line
  import opened Reception
  import opened UsbProtocol
  import opened UsbDevice
  import RoundTrip

  lemma PacketArrives(data: seq<bv8>)
    requires 1 <= |data| <= USB_BUFSIZE && RoundTrip.WellFormedPid(data[0])
    ensures Receive165(RoundTrip.PacketLine(data)) == Packet(data)
  {
    hide RoundTrip.PacketLine, Receive165, Receive20, RoundTrip.Transmission;
    RoundTrip.PacketLineCarries(data);
    RoundTrip.RoundTripPid(RoundTrip.PacketLine(data), data);
  }

  /** An IN token for endpoint 1 of the device with the given address. */
  function PollLine(deviceAddr: bv8): nat -> bv8 {
    RoundTrip.PacketLine([USBPID_IN, (deviceAddr >> 1) | 0x80, 0x00])
  }

  lemma PollLinePolls(deviceAddr: bv8)
    requires (deviceAddr & 1) == 0
    ensures Polls1(PollLine(deviceAddr), deviceAddr)
  {
    hide RoundTrip.PacketLine, Receive165;
    PollBytes(deviceAddr);
    PacketArrives([USBPID_IN, (deviceAddr >> 1) | 0x80, 0x00]);
  }

  lemma PollBytes(deviceAddr: bv8)
    requires (deviceAddr & 1) == 0
    ensures RoundTrip.WellFormedPid(USBPID_IN)
    ensures ForDevice((deviceAddr >> 1) | 0x80, deviceAddr) && Endpoint((deviceAddr >> 1) | 0x80, 0x00) != 0
  {
  }

  /** One poll right behind the test, one right behind the last assignment. */
  function RaceSchedule(deviceAddr: bv8, next: bv8, len: nat): Schedule {
    [[PollLine(deviceAddr)]] + seq(Slots(len) - 2, _ => []) + [[PollLine(next)]]
  }

  /** Whenever usbSetInterrupt is called while the last packet is still in the buffer and no received packet holds it
      back, there are packets on the bus for which the next two packets on endpoint 1 have the same token. */
  method RepeatsToken(d: Device, bytes: seq<bv8>, len: nat)
    requires d.Valid() && d.rxLen == 0 && !IsHandshake(d.tx1Len)
    requires len <= 8 && len <= |bytes| && bytes != []
    modifies d, d.rxBuf, d.tx1Buf
    ensures d.Valid() && |d.sent1| == |old(d.sent1)| + 2 && d.sent1[..|old(d.sent1)|] == old(d.sent1)
    ensures var n := |old(d.sent1)|;
            d.sent1[n] != [] && d.sent1[n + 1] != [] && d.sent1[n][0] == d.sent1[n + 1][0]
  {
    hide Polls1, Quiet, PollLine, Device.Valid, Device.Races;
    d.ValidShape();
    Arrange(d, len);
    d.SetInterrupt(bytes, len);
  }

  method Arrange(d: Device, len: nat)
    requires d.Valid() && d.rxLen == 0 && !IsHandshake(d.tx1Len)
    modifies d`arrivals
    ensures d.Valid() && d.Races(len) && 4 <= d.tx1Len <= 12
  {
    hide Polls1, PollLine, Device.Valid;
    d.ValidLeaves();
    PollLinePolls(d.deviceAddr);
    ShiftedEven(d.newDeviceAddr);
    PollLinePolls(d.newDeviceAddr << 1);
    d.SetArrivals(RaceSchedule(d.deviceAddr, d.newDeviceAddr << 1, len));
    var n := Slots(len);
    assert d.arrivals[1..n - 1] == seq(n - 2, _ => []);
  }

  /** Such a run: two calls of usbSetInterrupt after power-up, and two IN tokens during the second. */
  method RaceRun(app: App, configuration: bv8, bytes: seq<bv8>, len: nat) returns (d: Device)
    requires len <= 8 && len <= |bytes| && bytes != []
    ensures fresh(d) && d.Valid() && |d.sent1| == 2
    ensures d.sent1[0] != [] && d.sent1[1] != [] && d.sent1[0][0] == d.sent1[1][0]
  {
    hide Device.Valid, Device.Races, Polls1;
    d := new Device(app, [], configuration);
    d.SetInterrupt(bytes, len);
    RepeatsToken(d, bytes, len);
  }
}
