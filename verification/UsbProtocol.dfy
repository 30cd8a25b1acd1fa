/** What the protocol of the USB driver is about: packets, replies, transfers, and the order in which packets leave. */
module UsbProtocol {
  import opened Line
  import opened Registers
  import opened Reception
  import opened Crc16
  import opened ControlTransfer

  const USBPID_SETUP: bv8 := 0x2d
  const USBPID_OUT: bv8 := 0xe1
  const USBPID_IN: bv8 := 0x69
  const USBPID_ACK: nat := 0xd2
  const USBPID_NAK: nat := 0x5a
  const USBPID_STALL: nat := 0x1e

  /** usbTxLen holds either a packet length (4 to 12, sync included) or a handshake PID; only the latter have bit 4
      set. */
  predicate IsHandshake(txLen: nat) { (txLen / 16) % 2 == 1 }

  /** What the interrupt routine puts on the bus. */
  datatype Reply = Silent | Handshake(pid: nat) | Data(packet: seq<bv8>)

  /** The answer to a data packet: none without a token before it, and NAK while the buffer is taken. */
  function DataReply(tok: bv8, rxLen: nat): Reply {
    if tok == 0 then Silent else if rxLen != 0 then Handshake(USBPID_NAK) else Handshake(USBPID_ACK)
  }

  /** Whether a data packet of n bytes is kept: zero sized ones are acknowledged only. */
  predicate Stores(tok: bv8, rxLen: nat, n: nat) { tok != 0 && rxLen == 0 && n >= 4 }

  /** What an endpoint has to say: its handshake, or the packet in its buffer. */
  function InReply(len: nat, buf: seq<bv8>): Reply {
    if IsHandshake(len) then Handshake(len) else if 1 <= len <= |buf| + 1 then Data(buf[..len - 1]) else Silent
  }

  /** The token of the next packet on the interrupt endpoint: toggled only if the last packet had left when the call
      began, so one that leaves during the call is followed by one with the same token. */
  function NextToken1(len: nat, token: bv8): bv8 { if IsHandshake(len) then token ^ (DATA0 ^ DATA1) else token }

  /** The token to be remembered after one with the device's address, other than IN. */
  function TokenToKeep(token: bv8): bv8 { if token == USBPID_SETUP || token == USBPID_OUT then token else 0 }

  predicate ForDevice(b1: bv8, deviceAddr: bv8) { (b1 << 1) == deviceAddr }

  /** Seven bits of address are followed by four bits of endpoint number. */
  function Endpoint(b1: bv8, b2: bv8): bv8 { ((b2 & 0x7) << 1) | (b1 >> 7) }

  /** A data packet that was acknowledged and stored, with the token that announced it. */
  datatype Accepted = Accepted(token: bv8, packet: seq<bv8>)

  /** One packet on the bus, as the line carries it from its first bit after sync, and what the device made of it. */
  datatype Exchange = Exchange(line: nat -> bv8, reply: Reply)

  /** A data packet with a payload that the device has acknowledged. */
  ghost predicate Acknowledged(e: Exchange) {
    && Receive165(e.line).Packet? && |Receive165(e.line).bytes| >= 4 && IsDataToken(Receive165(e.line).bytes[0])
    && e.reply == Handshake(USBPID_ACK)
  }

  /** The data packets with a payload that have been acknowledged, in order. */
  ghost function AckedPackets(traffic: seq<Exchange>): seq<seq<bv8>> {
    if traffic == [] then [] else
    var e := traffic[|traffic| - 1];
    AckedPackets(traffic[..|traffic| - 1]) + (if Acknowledged(e) then [Receive165(e.line).bytes] else [])
  }

  function PacketsOf(accepted: seq<Accepted>): (packets: seq<seq<bv8>>)
    ensures |packets| == |accepted|
  {
    seq(|accepted|, i requires 0 <= i < |accepted| => accepted[i].packet)
  }

  /** The log after one more packet on the bus. */
  lemma AckedMore(traffic: seq<Exchange>, e: Exchange, accepted: seq<Accepted>, more: seq<Accepted>)
    requires AckedPackets(traffic) == PacketsOf(accepted)
    requires PacketsOf(more) == if Acknowledged(e) then [Receive165(e.line).bytes] else []
    ensures AckedPackets(traffic + [e]) == PacketsOf(accepted + more)
  {
    hide Acknowledged;
    assert (traffic + [e])[..|traffic|] == traffic;
    assert PacketsOf(accepted + more) == PacketsOf(accepted) + PacketsOf(more);
  }

  /** Which packets are acknowledged and have a payload, in terms of what se0 finds in the buffer. */
  lemma AcknowledgedIs(line: nat -> bv8, reply: Reply, w: seq<bv8>, tok: bv8, rxLen: nat)
    requires Receive165(line).Packet? && Receive165(line).bytes <= w && |w| == USB_BUFSIZE
    requires IsDataToken(w[0]) ==> reply == DataReply(tok, rxLen)
    ensures Acknowledged(Exchange(line, reply))
            <==> IsDataToken(w[0]) && Stores(tok, rxLen, |Receive165(line).bytes|)
  {
    hide Receive165;
  }

  lemma NotAcknowledged(line: nat -> bv8, reply: Reply)
    requires reply == Silent
    ensures !Acknowledged(Exchange(line, reply))
  {
    hide Receive165;
  }

  /** A SETUP packet of the right size. */
  predicate IsSetup(a: Accepted) { a.token == USBPID_SETUP && |a.packet| == 11 }

  /** A standard request, which the driver answers itself. */
  predicate Standard(a: Accepted, request: bv8) {
    IsSetup(a) && (a.packet[1] & 0x60) == 0 && a.packet[2] == request
  }

  /** SET_INTERFACE, which resets the data toggle of the interrupt endpoint. */
  predicate ResetsToggle(a: Accepted) { Standard(a, 11) }

  /** The eight bytes of the last SETUP among the packets, if there is one. */
  function LastSetup(packets: seq<Accepted>): (setup: seq<bv8>)
    ensures setup == [] || |setup| == 8
  {
    if packets == [] then [] else
    var a := packets[|packets| - 1];
    if IsSetup(a) then a.packet[1..9] else LastSetup(packets[..|packets| - 1])
  }

  /** The value of the last SET_CONFIGURATION among the packets. */
  function LastConfiguration(packets: seq<Accepted>, initial: bv8): bv8 {
    if packets == [] then initial else
    var a := packets[|packets| - 1];
    if a.token == 0x2d && |a.packet| == 11 && (a.packet[1] & 0x60) == 0 && a.packet[2] == 9 then a.packet[3]
    else LastConfiguration(packets[..|packets| - 1], initial)
  }

  /** How many results of usbFunctionWrite say that the data are complete. */
  function Finals(results: seq<nat>): nat {
    if results == [] then 0 else
    var r := results[|results| - 1];
    Finals(results[..|results| - 1]) + if r != 0 && r != 0xff then 1 else 0
  }

  lemma FinalsMore(results: seq<nat>, r: nat)
    ensures Finals(results + [r]) == Finals(results) + if r != 0 && r != 0xff then 1 else 0
  {
    assert (results + [r])[..|results|] == results;
  }

  /** Data packets without data. */
  function EmptyPackets(n: nat): (packets: seq<seq<bv8>>)
    ensures |packets| == n
  {
    seq(n, i requires 0 <= i < n => PacketOf(TokenAt(i), []))
  }

  lemma NoneEmptyYet()
    ensures EmptyPackets(0) == [] && Finals([]) == 0
  {
  }

  lemma EmptyMore(n: nat)
    ensures EmptyPackets(n + 1) == EmptyPackets(n) + [PacketOf(TokenAt(n), [])]
  {
  }

  /** From the n-th packet on there is no SETUP. */
  predicate NoneSetup(packets: seq<Accepted>, n: nat) { forall i :: n <= i < |packets| ==> !IsSetup(packets[i]) }

  predicate NoneResets(packets: seq<Accepted>, n: nat) { forall i :: n <= i < |packets| ==> !ResetsToggle(packets[i]) }

  const USB_NO_MSG: nat := 255

  /** What the application's main loop does next: call usbPoll, or usbSetInterrupt, or that only if
      usbInterruptIsReady. */
  datatype Work =
    | PollBus(reset: bool)
    | SetInterrupt(bytes: seq<bv8>, len: nat)
    | SetIfReady(bytes: seq<bv8>, len: nat)

  predicate Callable(w: Work) { w.PollBus? || (w.len <= 8 && w.len <= |w.bytes| && w.bytes != []) }

  /** How many of the calls are for the interrupt endpoint: at least, or at most. */
  function Interrupting(work: seq<Work>, most: bool): nat {
    if work == [] then 0 else
    var w := work[|work| - 1];
    Interrupting(work[..|work| - 1], most) + if w.SetInterrupt? || (most && w.SetIfReady?) then 1 else 0
  }

  /** Every call for the interrupt endpoint is guarded by the test. */
  predicate Guarded(work: seq<Work>) { forall i :: 0 <= i < |work| ==> !work[i].SetInterrupt? }

  type Served = s: seq<bv8> | |s| < USB_NO_MSG

  /** How the application answers a SETUP: with bytes at usbMsgPtr, or by USB_NO_MSG, asking to be called for the
      data. */
  datatype Answer = Serve(bytes: Served) | UserRw

  /** The application behind the driver.  The first argument counts the calls. */
  datatype App = App(setup: (nat, seq<bv8>) -> Answer, read: (nat, nat) -> (seq<bv8>, nat),
                     write: (nat, seq<bv8>) -> nat, descriptor: seq<bv8> -> Served)

  /** Where usbMsgPtr points: to constant memory, or into the tail of usbTxBuf. */
  datatype Pointer = Memory(bytes: seq<bv8>) | TxBuffer(at: nat)

  /** The reply to a standard request: usbDriverSetup. */
  function StandardReply(app: App, configuration: bv8, setup: seq<bv8>): Served
    requires |setup| == 8
  {
    if setup[1] == 0 then [0, 0]                  // GET_STATUS
    else if setup[1] == 6 then app.descriptor(setup)
    else if setup[1] == 8 then [configuration]    // GET_CONFIGURATION
    else if setup[1] == 10 then [0]               // GET_INTERFACE
    else []
  }

  function SetupReply(app: App, calls: nat, configuration: bv8, setup: seq<bv8>): Answer
    requires |setup| == 8
  {
    if (setup[0] & 0x60) != 0 then app.setup(calls, setup) else Serve(StandardReply(app, configuration, setup))
  }

  function WLength(setup: seq<bv8>): nat
    requires |setup| == 8
  {
    256 * (setup[7] as nat) + (setup[6] as nat)
  }

  /** A reply is never longer than the host asked for. */
  function Limited(bytes: Served, setup: seq<bv8>): Served
    requires |setup| == 8
  {
    if |bytes| > WLength(setup) then bytes[..WLength(setup)] else bytes
  }

  /** How much the application is asked for: in a control-in transfer, the low byte of wLength; in a control-out
      transfer nothing, until it has been given all data. */
  function Requested(setup: seq<bv8>): (n: nat)
    requires |setup| == 8
    ensures n <= USB_NO_MSG
  {
    if (setup[0] & 0x80) != 0 then setup[6] as nat else USB_NO_MSG
  }

  /** A SETUP that has been processed, and what its answer depended on: the number of calls of the application before
      it, the configuration, and the bytes behind the token in usbTxBuf; and how many packets had been built before. */
  datatype Request =
    | NoRequest
    | Request(setup: seq<bv8>, calls: nat, configuration: bv8, rest: seq<bv8>, begun: nat)

  /** What the processing of a packet may change, or depends on. */
  datatype Settings = Settings(request: Request, calls: nat, configuration: bv8, newDeviceAddr: bv8, rest: seq<bv8>,
                               begun: nat, reset1: nat, buffer1: seq<bv8>, userRw: bool, left: nat, toggles: nat,
                               intact: bool, readLens: seq<nat>, writeResults: seq<nat>)

  /** What the transfer that it asks for is answered by. */
  function AnswerTo(app: App, request: Request): Answer
    requires request.Request? && |request.setup| == 8
  {
    SetupReply(app, request.calls, request.configuration, request.setup)
  }

  /** The packets on the bus, as groups that arrive between two steps of the main loop. */
  type Schedule = seq<seq<nat -> bv8>>

  /** Nothing arrives in the next k gaps. */
  ghost predicate Quiet(arrivals: Schedule, k: nat) {
    forall i :: 0 <= i < k && i < |arrivals| ==> |arrivals[i]| == 0
  }

  /** What is left k gaps later. */
  function Later(arrivals: Schedule, k: nat): Schedule { if k <= |arrivals| then arrivals[k..] else [] }

  lemma LaterMore(arrivals: Schedule, j: nat, k: nat)
    ensures Later(Later(arrivals, j), k) == Later(arrivals, j + k)
    ensures Quiet(arrivals, j + k) <==> Quiet(arrivals, j) && Quiet(Later(arrivals, j), k)
  {
    if Quiet(arrivals, j) && Quiet(Later(arrivals, j), k) {
      forall i | 0 <= i < j + k && i < |arrivals| ensures |arrivals[i]| == 0 {
        if i >= j { assert arrivals[i] == Later(arrivals, j)[i - j]; }
      }
    }
  }

  /** The gaps between the steps of one usbSetInterrupt. */
  function Slots(len: nat): nat { 2 + (if len == 0 then 1 else len) + 2 + 1 }

  /** An IN token for the interrupt endpoint. */
  ghost predicate Polls1(line: nat -> bv8, deviceAddr: bv8) {
    && Receive165(line).Packet?
    && var bytes := Receive165(line).bytes;
       |bytes| == 3 && bytes[0] == USBPID_IN && ForDevice(bytes[1], deviceAddr) && Endpoint(bytes[1], bytes[2]) != 0
  }

  /** The half of the receive buffer at y after a packet: what a short one does not overwrite stays from before. */
  function Window(buf: seq<bv8>, y: nat, bytes: seq<bv8>): (w: seq<bv8>)
    requires |bytes| <= USB_BUFSIZE && y + USB_BUFSIZE <= |buf|
    ensures |w| == USB_BUFSIZE && bytes <= w
  {
    bytes + buf[y + |bytes|..y + USB_BUFSIZE]
  }

  /** a is b with elements left out. */
  ghost predicate Subsequence(a: seq<seq<bv8>>, b: seq<seq<bv8>>)
    decreases |b|
  {
    a == []
    || (b != [] && (Subsequence(a, b[..|b| - 1])
                    || (a[|a| - 1] == b[|b| - 1] && Subsequence(a[..|a| - 1], b[..|b| - 1]))))
  }

  lemma SubsequenceMore(a: seq<seq<bv8>>, b: seq<seq<bv8>>, x: seq<bv8>)
    requires Subsequence(a, b)
    ensures Subsequence(a, b + [x]) && Subsequence(a + [x], b + [x])
  {
    assert (a + [x])[..|a|] == a && (b + [x])[..|b|] == b;
  }

  lemma {:induction false} SubsequenceIn(a: seq<seq<bv8>>, b: seq<seq<bv8>>, p: seq<bv8>)
    requires Subsequence(a, b) && p in a
    ensures p in b
    decreases |b|
  {
    if Subsequence(a, b[..|b| - 1]) {
      SubsequenceIn(a, b[..|b| - 1], p);
    } else if p != a[|a| - 1] {
      SubsequenceIn(a[..|a| - 1], b[..|b| - 1], p);
    }
  }

  /** Of the packets built for an endpoint, those that are no longer in its buffer. */
  function Gone(len: nat, built: seq<seq<bv8>>): seq<seq<bv8>> {
    if IsHandshake(len) || built == [] then built else built[..|built| - 1]
  }

  lemma GoneMore(len: nat, len': nat, sent: seq<seq<bv8>>, built: seq<seq<bv8>>)
    requires Subsequence(sent, Gone(len, built)) && IsHandshake(len')
    ensures Subsequence(sent, Gone(len', built))
    ensures !IsHandshake(len) && built != [] ==> Subsequence(sent + [built[|built| - 1]], Gone(len', built))
  {
    if !IsHandshake(len) && built != [] {
      SubsequenceMore(sent, Gone(len, built), built[|built| - 1]);
      assert Gone(len, built) + [built[|built| - 1]] == built;
    }
  }

  /** Packets without their tokens. */
  function Bodies(packets: seq<seq<bv8>>): (bodies: seq<seq<bv8>>)
    ensures |bodies| == |packets|
  {
    seq(|packets|, i requires 0 <= i < |packets| => if packets[i] == [] then [] else packets[i][1..])
  }

  lemma BodiesMore(packets: seq<seq<bv8>>, p: seq<bv8>)
    requires p != []
    ensures Bodies(packets + [p]) == Bodies(packets) + [p[1..]]
  {
  }

  /** The bytes of a packet behind its token: up to eight and their CRC. */
  ghost predicate IsBody(body: seq<bv8>) {
    2 <= |body| <= 10 && body[|body| - 2..] == CrcBytes(body[..|body| - 2])
  }

  lemma BodyIsPacket(p: seq<bv8>)
    requires p != [] && IsDataToken(p[0]) && IsBody(p[1..])
    ensures DataPacket(p)
  {
    var body := p[1..];
    assert Payload(p) == body[..|body| - 2];
    assert p == [p[0]] + body[..|body| - 2] + body[|body| - 2..];
  }

  predicate NoneEmpty(packets: seq<seq<bv8>>) { forall i :: 0 <= i < |packets| ==> packets[i] != [] }

  /** No two tokens in a row are the same. */
  predicate Alternate(packets: seq<seq<bv8>>) {
    && NoneEmpty(packets)
    && forall i :: 0 <= i < |packets| - 1 ==> packets[i][0] != packets[i + 1][0]
  }

  lemma AlternateLater(packets: seq<seq<bv8>>, k: nat, n: nat)
    requires k <= n <= |packets| && Alternate(packets[k..])
    ensures Alternate(packets[n..])
  {
    assert packets[n..] == packets[k..][n - k..];
  }

  /** Tokens as they should be from DATA1 on. */
  predicate Tokened(packets: seq<seq<bv8>>) {
    forall i :: 0 <= i < |packets| ==> packets[i] != [] && packets[i][0] == TokenAt(i)
  }

  lemma AlternateMore(packets: seq<seq<bv8>>, k: nat, p: seq<bv8>)
    requires k <= |packets| && p != [] && NoneEmpty(packets)
    ensures NoneEmpty(packets + [p])
    ensures Alternate(packets[k..]) && (k < |packets| ==> packets[|packets| - 1][0] != p[0]) ==>
              Alternate((packets + [p])[k..])
  {
    assert (packets + [p])[k..] == packets[k..] + [p];
  }

  lemma ShiftedEven(a: bv8)
    ensures ((a << 1) & 1) == 0
  {
  }

  /** What is behind the token once the application has written up to wantLen bytes there. */
  function AppRest(app: App, calls: nat, wantLen: nat, rest: seq<bv8>): (r: seq<bv8>)
    requires |rest| == USB_BUFSIZE - 1 && wantLen <= 8
    ensures |r| == |rest|
  {
    var bytes := if wantLen == 0 then [] else Written(app.read(calls, wantLen).0, wantLen);
    bytes + rest[|bytes|..]
  }

  /** A block that the application supplies: the length it claims, and that many bytes behind the token, of which those
      that it has not written are left over from before. */
  function AppBlock(app: App, calls: nat, wantLen: nat, rest: seq<bv8>): (r: (nat, seq<bv8>))
    requires |rest| == USB_BUFSIZE - 1 && wantLen <= 8
  {
    var len := if wantLen == 0 then 0 else app.read(calls, wantLen).1 % 256;
    (len, if len <= 8 then AppRest(app, calls, wantLen, rest)[..len] else [])
  }

  function Wanted(left: nat): nat { if left > 8 then 8 else left }

  /** What usbFunctionRead is asked for. */
  function AskedFor(rw: bool, want: nat): seq<nat> { if rw && want > 0 then [want] else [] }

  /** The bytes behind the token once the CRC has been appended to the first n. */
  function WithCrc(rest: seq<bv8>, n: nat): (r: seq<bv8>)
    requires |rest| == USB_BUFSIZE - 1 && n <= 8
    ensures |r| == |rest|
  {
    rest[..n] + CrcBytes(rest[..n]) + rest[n + 2..]
  }

  /** How far a transfer that the application supplies has come: the calls of the application, what is left to be
      asked for, and the bytes behind the token in usbTxBuf. */
  datatype Course = Course(calls: nat, left: nat, rest: seq<bv8>)

  predicate Proper(c: Course) { c.left <= USB_NO_MSG && |c.rest| == USB_BUFSIZE - 1 }

  function Start(request: Request): (c: Course)
    requires request.Request? && |request.setup| == 8 && |request.rest| == USB_BUFSIZE - 1
    ensures Proper(c)
  {
    Course(request.calls + 1, Requested(request.setup), request.rest)
  }

  function NextBlock(app: App, c: Course): (nat, seq<bv8>)
    requires Proper(c)
  {
    AppBlock(app, c.calls, Wanted(c.left), c.rest)
  }

  function NextCourse(app: App, c: Course): (d: Course)
    requires Proper(c)
    ensures Proper(d)
  {
    var want, len := Wanted(c.left), NextBlock(app, c).0;
    var rest := AppRest(app, c.calls, want, c.rest);
    Course(if want == 0 then c.calls else c.calls + 1,
           if len == 8 then c.left - want else USB_NO_MSG,
           if len <= 8 then WithCrc(rest, len) else rest)
  }

  function CourseAfter(app: App, start: Course, n: nat): (c: Course)
    requires Proper(start)
    ensures Proper(c)
  {
    if n == 0 then start else NextCourse(app, CourseAfter(app, start, n - 1))
  }

  /** The first n packets of such a transfer: block after block, with alternating tokens. */
  function AppPackets(app: App, start: Course, n: nat): (packets: seq<seq<bv8>>)
    requires Proper(start)
    ensures |packets| == n
  {
    if n == 0 then [] else
    AppPackets(app, start, n - 1) + [PacketOf(TokenAt(n - 1), NextBlock(app, CourseAfter(app, start, n - 1)).1)]
  }

  /** None of the first n blocks is begun when there is nothing left to be asked for. */
  ghost predicate OnCourse(app: App, start: Course, n: nat)
    requires Proper(start)
  {
    forall i: nat :: i < n ==> CourseAfter(app, start, i).left < USB_NO_MSG
  }

  /** An application whose usbFunctionRead writes as many bytes as it says, and no more than it is asked for. */
  ghost predicate Truthful(app: App) {
    forall calls: nat, n: nat {:trigger app.read(calls, n)} :: 1 <= n <= 8 ==>
      |app.read(calls, n).0| == app.read(calls, n).1 <= n
  }

  /** One that never claims more than fits. */
  ghost predicate Modest(app: App) {
    forall calls: nat, n: nat {:trigger app.read(calls, n)} :: 1 <= n <= 8 ==> app.read(calls, n).1 % 256 <= 8
  }

  /** What it returns, call after call, until it returns less than eight bytes or nothing is left to be asked for. */
  function Supply(app: App, calls: nat, left: nat): (data: seq<bv8>)
    decreases left
  {
    if left == 0 then [] else
    var bytes := Written(app.read(calls, Wanted(left)).0, Wanted(left));
    if |bytes| < 8 then bytes else bytes + Supply(app, calls + 1, left - 8)
  }

  lemma TailOfTail(s: seq<bv8>, m: nat, n: nat)
    requires m + n <= |s|
    ensures s[m..][n..] == s[m + n..]
  {
  }

  lemma SupplyNext(app: App, calls: nat, left: nat)
    requires 8 <= |Supply(app, calls, left)|
    ensures 8 <= left && Supply(app, calls, left)[8..] == Supply(app, calls + 1, left - 8)
  {
  }

  lemma {:induction false} SupplyFrom(app: App, calls: nat, left: nat, i: nat, n: nat)
    requires n == 8 * i <= |Supply(app, calls, left)|
    ensures n <= left && Supply(app, calls, left)[n..] == Supply(app, calls + i, left - n)
    decreases i
  {
    hide Supply;
    if i > 0 {
      var data := Supply(app, calls, left);
      SupplyNext(app, calls, left);
      SupplyFrom(app, calls + 1, left - 8, i - 1, n - 8);
      TailOfTail(data, 8, n - 8);
    }
  }

  lemma FullBlock(app: App, c: Course)
    requires Proper(c) && Truthful(app) && c.left < USB_NO_MSG
    ensures var data := Supply(app, c.calls, c.left);
            NextBlock(app, c) == (|Chunk(data, 0)|, Chunk(data, 0))
    ensures |Supply(app, c.calls, c.left)| >= 8 ==>
              c.left >= 8 && NextCourse(app, c).calls == c.calls + 1 && NextCourse(app, c).left == c.left - 8
    ensures |Supply(app, c.calls, c.left)| < 8 ==> NextCourse(app, c).left == USB_NO_MSG
  {
    if c.left > 0 {
      var n := Wanted(c.left);
      assert |app.read(c.calls, n).0| == app.read(c.calls, n).1 <= n;
    }
  }

  lemma {:induction false} CourseAt(app: App, start: Course, i: nat)
    requires Proper(start) && Truthful(app) && start.left < USB_NO_MSG
    requires 8 * i <= |Supply(app, start.calls, start.left)|
    ensures var c := CourseAfter(app, start, i);
            8 * i <= start.left && c.calls == start.calls + i && c.left == start.left - 8 * i
    decreases i
  {
    hide NextCourse, NextBlock, Supply, Truthful;
    if i > 0 {
      CourseAt(app, start, i - 1);
      SupplyFrom(app, start.calls, start.left, i - 1, 8 * (i - 1));
      FullBlock(app, CourseAfter(app, start, i - 1));
    }
  }

  lemma ChunkFrom(data: seq<bv8>, i: nat)
    requires 8 * i <= |data|
    ensures Chunk(data[8 * i..], 0) == Chunk(data, i)
  {
  }

  lemma {:induction false} AppPacketsAre(app: App, start: Course, n: nat)
    requires Proper(start) && Truthful(app) && start.left < USB_NO_MSG
    requires n <= |Supply(app, start.calls, start.left)| / 8 + 1
    ensures AppPackets(app, start, n) == Packets(Supply(app, start.calls, start.left), n)
    ensures OnCourse(app, start, n)
    decreases n
  {
    hide NextCourse, NextBlock, Supply, Truthful, CourseAfter, Chunk, PacketOf, TokenAt;
    if n > 0 {
      var data := Supply(app, start.calls, start.left);
      AppPacketsAre(app, start, n - 1);
      CourseAt(app, start, n - 1);
      SupplyFrom(app, start.calls, start.left, n - 1, 8 * (n - 1));
      FullBlock(app, CourseAfter(app, start, n - 1));
      ChunkFrom(data, n - 1);
    }
  }

  /** Such an application's data are what the transfer carries: with the right number of packets, the right tokens, and
      only the last packet shorter than eight bytes, and the driver knows when it is over. */
  lemma SupplyIsTransferred(app: App, start: Course)
    requires Proper(start) && Truthful(app) && start.left < USB_NO_MSG
    ensures var data := Supply(app, start.calls, start.left);
            var n := |data| / 8 + 1;
            && AppPackets(app, start, n) == Transfer(data) && OnCourse(app, start, n)
            && CourseAfter(app, start, n).left == USB_NO_MSG
  {
    hide NextCourse, NextBlock, Supply, Truthful, Packets;
    var data := Supply(app, start.calls, start.left);
    var n := |data| / 8;
    AppPacketsAre(app, start, n + 1);
    CourseAt(app, start, n);
    SupplyFrom(app, start.calls, start.left, n, 8 * n);
    FullBlock(app, CourseAfter(app, start, n));
  }

  /** An application that always returns as much as it is asked for gets all of it across. */
  lemma {:induction false} SupplyAll(app: App, calls: nat, left: nat)
    requires forall c: nat, n: nat {:trigger app.read(c, n)} :: 1 <= n <= 8 ==> |app.read(c, n).0| == n
    ensures |Supply(app, calls, left)| == left
    decreases left
  {
    if left >= 8 { SupplyAll(app, calls + 1, left - 8); }
  }

  /** The bytes that arrive in a buffer of n. */
  function Written(bytes: seq<bv8>, n: nat): (w: seq<bv8>)
    ensures |w| <= n
  {
    if |bytes| <= n then bytes else bytes[..n]
  }

  lemma {:induction false} PacketsPrefix(reply: seq<bv8>, m: nat, n: nat)
    requires m <= n <= |reply| / 8 + 1
    ensures Packets(reply, m) <= Packets(reply, n)
    decreases n
  {
    hide PacketOf, Chunk, TokenAt;
    if m < n { PacketsPrefix(reply, m, n - 1); }
  }

  /** The length test on two bytes, for replies below 255 bytes. */
  lemma LimitedIsCut(bytes: Served, setup: seq<bv8>)
    requires |setup| == 8
    ensures |Limited(bytes, setup)| == if setup[7] == 0 && |bytes| > setup[6] as nat then setup[6] as nat else |bytes|
    ensures Limited(bytes, setup) <= bytes
  {
    if setup[7] != 0 {
      Positive(setup[7]);
    }
  }

  lemma Positive(b: bv8)
    requires b != 0
    ensures b as nat >= 1
  {
  }

  lemma PacketsGrow(reply: seq<bv8>, n: nat)
    requires 1 <= n <= |reply| / 8 + 1
    ensures Packets(reply, n) == Packets(reply, n - 1) + [PacketOf(TokenAt(n - 1), Chunk(reply, n - 1))]
  {
  }

  lemma NewPacket(i: int, payload: seq<bv8>)
    requires |payload| <= 8
    ensures DataPacket(PacketOf(TokenAt(i), payload))
  {
    PacketPayload(TokenAt(i), payload);
  }

  lemma NoneLater(a: Schedule)
    ensures Later(a, 0) == a && Quiet(a, 0)
  {
  }

  /** How the gaps of usbSetInterrupt follow each other. */
  lemma Gaps(a: Schedule, copy: nat)
    requires copy >= 1 && |a| >= copy + 5 && Quiet(a[1..copy + 4], copy + 3)
    ensures Quiet(Later(a, 1), copy + 3) && |Later(a, copy + 4)| > 0 && Later(a, copy + 4)[0] == a[copy + 4]
  {
    forall i | 1 <= i < copy + 4 ensures |a[i]| == 0 { assert a[i] == a[1..copy + 4][i - 1]; }
  }

  lemma TokenFirst(s: seq<bv8>, n: nat)
    requires 1 <= n <= |s|
    ensures s[..n] == [s[0]] + s[1..n]
  {
  }

  lemma BodyBuilt(payload: seq<bv8>)
    requires |payload| <= 8
    ensures IsBody(payload + CrcBytes(payload))
  {
    hide CrcBytes;
    var body := payload + CrcBytes(payload);
    assert body[..|body| - 2] == payload && body[|body| - 2..] == CrcBytes(payload);
  }

  lemma TokenTurns(token: bv8)
    requires IsDataToken(token)
    ensures IsDataToken(token ^ (DATA0 ^ DATA1)) && token ^ (DATA0 ^ DATA1) != token
  {
  }

  lemma CrcStored(was: seq<bv8>, len: nat, l: bv8, h: bv8)
    requires |was| == USB_BUFSIZE && len <= 8 && [l, h] == CrcBytes(was[1..1 + len])
    ensures var now := was[1 + len := l][2 + len := h];
            && now[..len + 3] == PacketOf(was[0], was[1..][..len])
            && now[0] == was[0] && now[1..] == WithCrc(was[1..], len)
  {
    hide CrcBytes;
    assert was[1..][..len] == was[1..1 + len] && was[1..][len + 2..] == was[len + 3..];
    assert was[1 + len := l][2 + len := h][..len + 3] == [was[0]] + was[1..1 + len] + [l, h];
  }

  lemma SliceOfSlice(s: seq<bv8>, i: nat, m: nat, n: nat)
    requires i + m <= |s| && 1 + n <= m
    ensures s[i..i + m][1..1 + n] == s[i + 1..i + 1 + n]
  {
    var t, u := s[i..i + m][1..1 + n], s[i + 1..i + 1 + n];
    assert |t| == |u| && forall k :: 0 <= k < n ==> t[k] == u[k];
  }

  lemma OneMoreByte(was: seq<bv8>, now: seq<bv8>, source: seq<bv8>, r: nat)
    requires |was| == USB_BUFSIZE && r < |source| && r < 8 && now == was[..1] + source[..r] + was[1 + r..]
    ensures now[1 + r := source[r]] == was[..1] + source[..r + 1] + was[1 + (r + 1)..]
  {
  }

  /** The bytes that the application has written, over what was there. */
  lemma Behind(was: seq<bv8>, now: seq<bv8>, bytes: seq<bv8>)
    requires |was| == USB_BUFSIZE && |bytes| <= 8 && now == was[..1] + bytes + was[1 + |bytes|..]
    ensures now[0] == was[0] && now[1..] == bytes + was[1..][|bytes|..]
  {
  }

  /** The next block and what comes after it, once the bytes are in place. */
  lemma CourseGoesOn(app: App, c: Course, len: nat)
    requires Proper(c) && len == NextBlock(app, c).0 <= 8
    ensures var rest := AppRest(app, c.calls, Wanted(c.left), c.rest);
            && NextBlock(app, c).1 == rest[..len]
            && NextCourse(app, c) == Course(c.calls + (if c.left == 0 then 0 else 1),
                                            if len < 8 then USB_NO_MSG else c.left - Wanted(c.left),
                                            WithCrc(rest, len))
  {
  }

  lemma FirstCopied(was: seq<bv8>, now: seq<bv8>, source: seq<bv8>, len: nat)
    requires |was| == USB_BUFSIZE && len <= 8 && len <= |source|
    requires now == was[..1] + source[..len] + was[1 + len..]
    ensures now[1..][..len] == source[..len]
  {
  }

  /** A block that nothing is asked for is empty and the last one. */
  lemma EmptyBlock(app: App, c: Course)
    requires Proper(c) && c.left == 0
    ensures NextBlock(app, c) == (0, []) && NextCourse(app, c).left == USB_NO_MSG
  {
  }

  /** What an application that never claims more than eight bytes supplies always fits. */
  lemma ModestBlock(app: App, c: Course)
    requires Proper(c) && Modest(app)
    ensures NextBlock(app, c).0 <= 8
  {
    if Wanted(c.left) > 0 { assert app.read(c.calls, Wanted(c.left)).1 % 256 <= 8; }
  }

  lemma NothingAsked(app: App, calls: nat, rest: seq<bv8>)
    requires |rest| == USB_BUFSIZE - 1
    ensures AppBlock(app, calls, 0, rest).0 == 0 && AppRest(app, calls, 0, rest) == rest
  {
  }

  lemma NextChunk(reply: seq<bv8>, n: nat, source: seq<bv8>, len: nat)
    requires 8 * n <= |reply| && source == reply[8 * n..] && len == if |source| > 8 then 8 else |source|
    ensures source[..len] == Chunk(reply, n) && source[len..] == reply[8 * n + len..]
  {
  }

  lemma ToggleToken(i: int)
    ensures TokenAt(i - 1) ^ (DATA0 ^ DATA1) == TokenAt(i)
  {
  }

  lemma WindowReceived(was: seq<bv8>, now: seq<bv8>, y: nat, bytes: seq<bv8>)
    requires y + USB_BUFSIZE <= |was| && |bytes| <= USB_BUFSIZE && now == was[..y] + bytes + was[y + |bytes|..]
    ensures |now| == |was| && now[y..y + USB_BUFSIZE] == Window(was, y, bytes)
  {
    var n := y + |bytes|;
    assert now[n..y + USB_BUFSIZE] == was[n..][..y + USB_BUFSIZE - n] == was[n..y + USB_BUFSIZE];
    assert now[y..n] == bytes && now[y..y + USB_BUFSIZE] == now[y..n] + now[n..y + USB_BUFSIZE];
  }

  lemma WindowFirst(buf: seq<bv8>, y: nat, bytes: seq<bv8>, w: seq<bv8>)
    requires y + USB_BUFSIZE <= |buf| && |w| == USB_BUFSIZE && buf[y..y + USB_BUFSIZE] == w && bytes <= w
    ensures buf[y] == w[0] && buf[y + 1] == w[1] && buf[y + 2] == w[2] && buf[y..y + |bytes|] == bytes
  {
    assert buf[y] == buf[y..y + USB_BUFSIZE][0] && buf[y + 1] == buf[y..y + USB_BUFSIZE][1];
    assert buf[y + 2] == buf[y..y + USB_BUFSIZE][2];
    assert buf[y..y + |bytes|] == w[..|bytes|];
  }

  lemma WindowOfThree(buf: seq<bv8>, y: nat, line: nat -> bv8)
    requires y + USB_BUFSIZE <= |buf|
    ensures Receive165(line).Packet? && |Receive165(line).bytes| == 3 ==>
              Window(buf, y, Receive165(line).bytes)[..3] == Receive165(line).bytes
  {
  }

  /** Receiving into one half leaves the other alone. */
  lemma HalfKept(was: seq<bv8>, now: seq<bv8>, offset: nat, n: nat)
    requires |was| == |now| == 2 * USB_BUFSIZE && (offset == 0 || offset == USB_BUFSIZE) && n <= USB_BUFSIZE
    requires now[..offset] == was[..offset] && now[offset + USB_BUFSIZE..] == was[offset + USB_BUFSIZE..]
    ensures now[USB_BUFSIZE - offset..USB_BUFSIZE - offset + n] == was[USB_BUFSIZE - offset..USB_BUFSIZE - offset + n]
  {
    if offset == 0 {
      assert now[USB_BUFSIZE..][..n] == was[USB_BUFSIZE..][..n];
    } else {
      assert now[..USB_BUFSIZE][..n] == was[..USB_BUFSIZE][..n];
    }
  }
}
