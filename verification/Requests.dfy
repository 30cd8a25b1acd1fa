/** What the host gets for its requests: from the SETUP in the receive buffer through any run without another one. */
module Requests {
  import opened Line
  import opened Reception
  import opened Crc16
  import opened ControlTransfer
  import opened UsbProtocol
  import opened UsbDevice

  /** A SETUP with these eight bytes waits in the receive buffer. */
  ghost predicate SetupWaits(d: Device, setup: seq<bv8>)
    reads d, d.rxBuf, d.txBuf, d.tx1Buf
  {
    && d.Valid() && d.rxToken == 0x2d && d.rxLen == 11 && d.inputBufOffset <= USB_BUFSIZE
    && d.Stored()[1..9] == setup
  }

  /** Since these packets were processed, the SETUP has been, and no other. */
  ghost predicate OnlySetup(d: Device, was: seq<Accepted>)
    reads d
  {
    |was| < |d.processed| && NoneSetup(d.processed, |was| + 1)
  }

  /** The device has nothing left to send. */
  ghost predicate AllSent(d: Device)
    reads d
  {
    d.msgLen == 255 && (d.txLen / 16) % 2 == 1
  }

  /** The first n bytes, or all of them. */
  function Cut(bytes: seq<bv8>, n: nat): seq<bv8> { if |bytes| <= n then bytes else bytes[..n] }

  lemma Waiting(d: Device, setup: seq<bv8>)
    requires SetupWaits(d, setup)
    ensures d.Valid() && |setup| == 8 && d.Shape() && |d.Stored()| == 11 && d.Stored()[1..9] == setup
    ensures IsSetup(Accepted(d.rxToken, d.Stored()))
    ensures d.rxLen != 0 && d.configuration == LastConfiguration(d.processed, d.initial)
  {
  }

  /** One call of usbPoll processes it. */
  method PollSetup(d: Device, ghost setup: seq<bv8>, reset: bool)
    requires SetupWaits(d, setup)
    modifies d, d.rxBuf, d.txBuf, d.tx1Buf
    ensures d.Valid() && d.Shape() && |setup| == 8
    ensures |d.processed| == |old(d.processed)| + 1 && OnlySetup(d, old(d.processed)) && d.Alone()
    ensures d.request == old(d.Asking(setup)) && d.writeResults == [] && old(d.built) <= d.built
    ensures d.newDeviceAddr == if reset then 0
                               else if (setup[0] & 0x60) == 0 && setup[1] == 5 then setup[2]
                               else old(d.newDeviceAddr)
    ensures d.configuration == if (setup[0] & 0x60) == 0 && setup[1] == 9 then setup[2] else old(d.configuration)
    ensures d.userRw ==> d.Starts(Start(d.request), old(d.built))
  {
    hide Device.Valid, Device.Starts, Start, PacketOf, Chunk, SetupWaits;
    Waiting(d, setup);
    d.Poll(reset);
  }

  /** And any further calls. */
  method RunSetup(d: Device, ghost setup: seq<bv8>, reset: bool, work: seq<Work>)
    requires SetupWaits(d, setup) && forall w <- work :: Callable(w)
    modifies d, d.rxBuf, d.txBuf, d.tx1Buf
    ensures d.Valid() && d.Shape() && |setup| == 8 && old(d.built) <= d.built
    ensures old(d.configuration) == LastConfiguration(old(d.processed), d.initial)
    ensures OnlySetup(d, old(d.processed)) ==> d.request == old(d.Asking(setup))
    ensures |d.processed| == |old(d.processed)| + 1 ==> OnlySetup(d, old(d.processed)) && d.Alone()
  {
    hide Device.Valid, Device.Starts, Start, SetupWaits, Callable, Device.Asking;
    Waiting(d, setup);
    PollSetup(d, setup, reset);
    d.Run(work);
    d.ValidShape();
  }

  // ---- standard requests

  /** What the driver sends by itself, as section 9.4 of USB 2.0 names it: the status, the descriptor, the
      configuration, or the alternate setting 0, as far as wLength asks for it; for everything else one empty packet. */
  ghost predicate Due(app: App, configuration: bv8, setup: seq<bv8>, packets: seq<seq<bv8>>)
    requires |setup| == 8
  {
    && LongEnough(packets) && WellSequenced(packets)
    && var n, got := setup[6] as nat + 256 * (setup[7] as nat), Received(packets);
       if setup[1] == 0 then got == Cut([0, 0], n)                       // GET_STATUS
       else if setup[1] == 6 then got == Cut(app.descriptor(setup), n)   // GET_DESCRIPTOR
       else if setup[1] == 8 then got == Cut([configuration], n)         // GET_CONFIGURATION
       else if setup[1] == 10 then got == Cut([0], n)                    // GET_INTERFACE
       else packets == [PacketOf(0x4b, [])]                              // SET_ADDRESS and all others
  }

  lemma StandardAnswer(app: App, request: Request)
    requires request.Request? && |request.setup| == 8 && (request.setup[0] & 0x60) == 0
    ensures AnswerTo(app, request).Serve?
    ensures var reply := Limited(AnswerTo(app, request).bytes, request.setup);
            Due(app, request.configuration, request.setup, Transfer(reply))
  {
    hide Packets, Received, PacketOf, WellSequenced;
    var bytes := AnswerTo(app, request).bytes;
    TransferReassembles(Limited(bytes, request.setup));
    EmptyTransfer();
  }

  /** A standard request: once the device has nothing left to send, the host has what is due; the configuration is the
      value of the last SET_CONFIGURATION. */
  method StandardRequest(d: Device, ghost setup: seq<bv8>, reset: bool, work: seq<Work>)
    requires SetupWaits(d, setup) && (setup[0] & 0x60) == 0 && forall w <- work :: Callable(w)
    modifies d, d.rxBuf, d.txBuf, d.tx1Buf
    ensures d.Valid()
    ensures OnlySetup(d, old(d.processed)) && AllSent(d) ==>
              Due(d.app, LastConfiguration(old(d.processed), d.initial), setup, d.delivered)
  {
    hide Device.Valid, SetupWaits, OnlySetup, LastConfiguration, AnswerTo, Limited, Due, Packets;
    RunSetup(d, setup, reset, work);
    if OnlySetup(d, old(d.processed)) && AllSent(d) {
      StandardAnswer(d.app, d.request);
      d.ServedTransfer(AnswerTo(d.app, d.request).bytes);
    }
  }

  lemma EmptyTransfer()
    ensures Transfer([]) == [PacketOf(0x4b, [])]
  {
    hide PacketOf;
    assert Packets([], 0) == [] && Chunk([], 0) == [];
  }

  // ---- requests whose data the application supplies

  /** It always returns as much as it is asked for. */
  ghost predicate Obliging(app: App) {
    forall calls: nat, n: nat {:trigger app.read(calls, n)} :: 1 <= n <= 8 ==>
      |app.read(calls, n).0| == app.read(calls, n).1 == n
  }

  /** A control-in request that the application answers by asking to be called. */
  ghost predicate AsksForData(d: Device, setup: seq<bv8>)
    reads d, d.rxBuf, d.txBuf, d.tx1Buf
  {
    && SetupWaits(d, setup) && |setup| == 8 && (setup[0] & 0x60) != 0 && (setup[0] & 0x80) != 0
    && setup[6] != 255 && d.app.setup(d.calls, setup) == UserRw
  }

  /** Such a request begins in the call that processes the SETUP: the application is asked for the first eight bytes, or
      as many as byte 6 says, and they are in the first packet. */
  method FirstSupplied(d: Device, ghost setup: seq<bv8>, reset: bool)
    requires AsksForData(d, setup) && Obliging(d.app)
    modifies d, d.rxBuf, d.txBuf, d.tx1Buf
    ensures d.Valid() && d.toggles == 1
    ensures var n := setup[6] as nat;
            var want := if n < 8 then n else 8;
            var bytes := if n == 0 then [] else d.app.read(old(d.calls) + 1, want).0;
            |bytes| == want && d.built == old(d.built) + [PacketOf(0x4b, bytes)]
  {
    hide Device.Valid, SetupWaits, PacketOf, Obliging, Requested;
    AsksFacts(d, setup);
    PollSetup(d, setup, reset);
    RequestedIs(setup);
    AnsweredBy(d);
    ObligingBlock(d.app, Start(d.request));
  }

  lemma AsksFacts(d: Device, setup: seq<bv8>)
    requires AsksForData(d, setup)
    ensures SetupWaits(d, setup) && d.Shape() && |setup| == 8
    ensures SetupReply(d.app, d.calls, d.configuration, setup) == UserRw
  {
  }

  /** How much is asked for. */
  lemma RequestedIs(setup: seq<bv8>)
    requires |setup| == 8
    ensures (setup[0] & 0x80) != 0 && setup[6] != 255 ==> Requested(setup) == setup[6] as nat < 255
    ensures (setup[0] & 0x80) == 0 ==> Requested(setup) == 255
  {
    if setup[6] != 255 { BelowTop(setup[6]); }
  }

  lemma BelowTop(b: bv8)
    requires b != 255
    ensures b as nat < 255
  {
  }

  lemma AnsweredBy(d: Device)
    requires d.Valid() && d.request.Request?
    ensures |d.request.setup| == 8 && (d.userRw <==> AnswerTo(d.app, d.request).UserRw?)
  {
    d.SuppliedBy();
  }

  lemma ObligingBlock(app: App, c: Course)
    requires Proper(c) && Obliging(app) && c.left < 255
    ensures var want := Wanted(c.left);
            var bytes := if want == 0 then [] else app.read(c.calls, want).0;
            |bytes| == want && NextBlock(app, c) == (want, bytes)
  {
  }

  /** Once the device has nothing left to send, and if no other packet has come in between, the host has exactly as many
      bytes as byte 6 of the SETUP asks for, in well-formed packets. */
  method SuppliedRequest(d: Device, ghost setup: seq<bv8>, reset: bool, work: seq<Work>)
    requires AsksForData(d, setup) && Obliging(d.app) && forall w <- work :: Callable(w)
    modifies d, d.rxBuf, d.txBuf, d.tx1Buf
    ensures d.Valid()
    ensures |d.processed| == |old(d.processed)| + 1 && AllSent(d) ==>
              && LongEnough(d.delivered) && WellSequenced(d.delivered)
              && |Received(d.delivered)| == setup[6] as nat
              && Received(d.delivered) == Supply(d.app, old(d.calls) + 1, setup[6] as nat)
  {
    hide Device.Valid, SetupWaits, OnlySetup, Obliging, Requested, WellSequenced, Supply, SetupReply, AppPackets;
    AsksFacts(d, setup);
    RunSetup(d, setup, reset, work);
    if |d.processed| == |old(d.processed)| + 1 && AllSent(d) {
      RequestedIs(setup);
      AnsweredBy(d);
      ObligingIs(d.app);
      d.ModestIntact();
      d.SuppliedTransfer();
      SupplyAll(d.app, old(d.calls) + 1, setup[6] as nat);
    }
  }

  lemma ObligingIs(app: App)
    requires Obliging(app)
    ensures Truthful(app) && Modest(app)
    ensures forall c: nat, n: nat {:trigger app.read(c, n)} :: 1 <= n <= 8 ==> |app.read(c, n).0| == n
  {
    forall c: nat, n: nat | 1 <= n <= 8 ensures |app.read(c, n).0| == app.read(c, n).1 == n <= 8 {
      assert |app.read(c, n).0| == app.read(c, n).1 == n;
    }
  }

  // ---- requests whose data the application takes

  /** A control-out request that the application answers by asking to be called. */
  ghost predicate OffersData(d: Device, setup: seq<bv8>)
    reads d, d.rxBuf, d.txBuf, d.tx1Buf
  {
    && SetupWaits(d, setup) && |setup| == 8 && (setup[0] & 0x60) != 0 && (setup[0] & 0x80) == 0
    && d.app.setup(d.calls, setup) == UserRw
  }

  /** None of these results says that the data are complete. */
  predicate NoneFinal(results: seq<nat>) {
    forall i :: 0 <= i < |results| ==> results[i] == 0 || results[i] == 0xff
  }

  lemma {:induction false} NoneFinalIff(results: seq<nat>)
    ensures NoneFinal(results) <==> Finals(results) == 0
    decreases |results|
  {
    if results != [] {
      var n := |results| - 1;
      NoneFinalIff(results[..n]);
      assert results == results[..n] + [results[n]];
    }
  }

  /** In such a request usbFunctionRead is not called, and no packet is built before usbFunctionWrite has returned
      something other than 0 and 0xff.  The packets built after that are empty, the first one is for DATA1, and with one
      such result there is one of them, if it has been begun. */
  method TakenRequest(d: Device, ghost setup: seq<bv8>, reset: bool, work: seq<Work>)
    requires OffersData(d, setup) && forall w <- work :: Callable(w)
    modifies d, d.rxBuf, d.txBuf, d.tx1Buf
    ensures d.Valid()
    ensures OnlySetup(d, old(d.processed)) ==>
              && d.readLens == []
              && (NoneFinal(d.writeResults) ==> d.built == old(d.built) && d.msgLen == 255)
              && (!NoneFinal(d.writeResults) && d.msgLen != 0 && 0xff !in d.writeResults ==>
                    old(d.built) + [PacketOf(0x4b, [])] <= d.built)
              && (Finals(d.writeResults) == 1 && d.msgLen != 0 && 0xff !in d.writeResults ==>
                    d.built == old(d.built) + [PacketOf(0x4b, [])])
  {
    hide Device.Valid, SetupWaits, OnlySetup, Requested, PacketOf, NoneFinal, Finals, SetupReply;
    OffersFacts(d, setup);
    RunSetup(d, setup, reset, work);
    if OnlySetup(d, old(d.processed)) {
      AnsweredBy(d);
      NoneFinalIff(d.writeResults);
      d.DataTaken(old(d.built));
    }
  }

  lemma OffersFacts(d: Device, setup: seq<bv8>)
    requires OffersData(d, setup)
    ensures SetupWaits(d, setup) && d.Shape() && |setup| == 8
    ensures SetupReply(d.app, d.calls, d.configuration, setup) == UserRw
  {
  }

  /** While such a request waits for data, the call that passes the last of them to usbFunctionWrite builds one empty
      packet for DATA1. */
  method FinalData(d: Device, ghost data: seq<bv8>, reset: bool)
    requires d.Valid() && d.TakesData() && NoneFinal(d.writeResults) && 0xff !in d.writeResults
    requires d.rxToken == 0xe1 && d.rxLen >= 4 && d.Shape() && d.inputBufOffset <= USB_BUFSIZE && d.rxLen <= USB_BUFSIZE
    requires data == d.Stored()[1..d.rxLen - 2] && d.app.write(d.calls, data) !in {0, 0xff}
    modifies d, d.rxBuf, d.txBuf, d.tx1Buf
    ensures d.Valid() && d.writeResults == old(d.writeResults) + [d.app.write(old(d.calls), data)]
    ensures d.readLens == [] && d.built == old(d.built) + [PacketOf(0x4b, [])]
  {
    hide Device.Valid, PacketOf, NoneFinal, Finals, Device.Starts, Start, Chunk, NextBlock;
    NoneFinalIff(d.writeResults);
    FinalsMore(d.writeResults, d.app.write(d.calls, data));
    d.DataBegun();
    d.Poll(reset);
    d.DataBegun();
    d.DataTaken(old(d.built));
  }
}
