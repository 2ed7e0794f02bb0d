/** The order server's receive path: framing of a byte stream, socket ownership and request sequence numbers. */
module OrderServers {
  import opened MarketTypes
  import opened Sequences

  /** The size in bytes of a request on the wire, all fields packed. */
  const REQUEST_SIZE: nat := 38

  type Bytes = seq<bv8>

  datatype RequestKind = INVALID_REQUEST | NEW | CANCEL_REQUEST

  datatype ClientRequest = ClientRequest(
    kind: RequestKind, client: nat, ticker: nat, orderId: nat, side: Side, price: nat, qty: nat)

  /** A request with its sender's sequence number. */
  datatype Numbered = Numbered(num: nat, request: ClientRequest)

  /** How one frame of bytes reads as a request. */
  type Decoder = Bytes -> Numbered

  // ---------- framing ----------

  /** Every whole request in the bytes, in order. */
  function Decoded(d: Decoder, bytes: Bytes): seq<Numbered> {
    if |bytes| < REQUEST_SIZE then [] else [d(bytes[..REQUEST_SIZE])] + Decoded(d, bytes[REQUEST_SIZE..])
  }

  /** What is left behind the last whole request. */
  function Leftover(bytes: Bytes): Bytes {
    if |bytes| < REQUEST_SIZE then bytes else Leftover(bytes[REQUEST_SIZE..])
  }

  /** Decoding what has come so far loses nothing: the rest is decoded from the leftover and what follows. */
  lemma {:induction false} DecodeInTwo(d: Decoder, a: Bytes, b: Bytes)
    ensures Decoded(d, a + b) == Decoded(d, a) + Decoded(d, Leftover(a) + b)
    ensures Leftover(a + b) == Leftover(Leftover(a) + b)
    decreases |a|
  {
    if |a| < REQUEST_SIZE {
      NothingBefore(Decoded(d, a + b));
    } else {
      SplitFront(a, b, REQUEST_SIZE);
      DecodeInTwo(d, a[REQUEST_SIZE..], b);
      JoinsEitherWay([d(a[..REQUEST_SIZE])], Decoded(d, a[REQUEST_SIZE..]),
                     Decoded(d, Leftover(a[REQUEST_SIZE..]) + b));
    }
  }

  /** Request number `k` is what bytes 38k up to 38k + 38 decode to. */
  lemma {:induction false} DecodedAt(d: Decoder, bytes: Bytes, k: nat)
    requires k < |Decoded(d, bytes)|
    ensures 38 * k + 38 <= |bytes| && Decoded(d, bytes)[k] == d(bytes[38 * k..38 * k + 38])
    decreases |bytes|
  {
    if k > 0 {
      var rest := bytes[REQUEST_SIZE..];
      DecodedAt(d, rest, k - 1);
      assert rest[38 * (k - 1)..38 * (k - 1) + 38] == bytes[38 * k..38 * k + 38];
    }
  }

  /** There are as many as whole frames, and what is left is what is behind them. */
  lemma {:induction false} DecodedCount(d: Decoder, bytes: Bytes)
    ensures 38 * |Decoded(d, bytes)| <= |bytes| < 38 * |Decoded(d, bytes)| + 38
    ensures Leftover(bytes) == bytes[38 * |Decoded(d, bytes)|..]
    decreases |bytes|
  {
    if |bytes| >= REQUEST_SIZE {
      DecodedCount(d, bytes[REQUEST_SIZE..]);
    }
  }

  /** Every request names a client within the tables. */
  ghost predicate Addressed(qs: seq<Numbered>) {
    forall i :: 0 <= i < |qs| ==> qs[i].request.client < MAX_CLIENTS
  }

  predicate IsRest(bytes: Bytes, i: nat, rest: Bytes) {
    i <= |bytes| && rest == bytes[i..]
  }

  /** With `done` decoded from the first `i` bytes, the rest is still to be; folded, for the loop that carries it. */
  ghost predicate DecodedUpTo(d: Decoder, bytes: Bytes, i: nat, done: seq<Numbered>) {
    && i <= |bytes|
    && forall rest {:trigger IsRest(bytes, i, rest)} :: IsRest(bytes, i, rest) ==>
         Decoded(d, bytes) == done + Decoded(d, rest) && Leftover(bytes) == Leftover(rest)
  }

  lemma DecodeFirst(d: Decoder, bytes: Bytes)
    ensures DecodedUpTo(d, bytes, 0, [])
  {
    NothingBefore(Decoded(d, bytes));
    assert bytes[0..] == bytes;
  }

  lemma DecodeNext(d: Decoder, bytes: Bytes, i: nat, done: seq<Numbered>, frame: Bytes)
    requires DecodedUpTo(d, bytes, i, done) && i + REQUEST_SIZE <= |bytes| && frame == bytes[i..i + REQUEST_SIZE]
    ensures DecodedUpTo(d, bytes, i + REQUEST_SIZE, done + [d(frame)])
    ensures Addressed(Decoded(d, bytes)) ==> d(frame).request.client < MAX_CLIENTS
  {
    var rest := bytes[i + REQUEST_SIZE..];
    assert IsRest(bytes, i, bytes[i..]);
    assert bytes[i..][..REQUEST_SIZE] == frame && bytes[i..][REQUEST_SIZE..] == rest;
    assert Decoded(d, bytes[i..]) == [d(frame)] + Decoded(d, rest);
    JoinsEitherWay(done, [d(frame)], Decoded(d, rest));
    assert Decoded(d, bytes)[|done|] == d(frame);
  }

  lemma DecodeLast(d: Decoder, bytes: Bytes, i: nat, done: seq<Numbered>)
    requires DecodedUpTo(d, bytes, i, done) && i + REQUEST_SIZE > |bytes|
    ensures done == Decoded(d, bytes) && bytes[i..] == Leftover(bytes)
  {
    assert IsRest(bytes, i, bytes[i..]);
  }

  // ---------- ownership and sequencing ----------

  const NO_SOCKET: int := -1

  /** A request passed on to the sequencer, and the socket it came from. */
  datatype Entry = Entry(fd: int, request: Numbered)

  datatype Server = Server(sockets: seq<int>, expected: seq<nat>, accepted: seq<Entry>)

  /**
   The first socket to speak for a client keeps it; then only the expected number is accepted. A client
   outside the tables is outside the model: the server below demands there is none.
   */
  function Handle(s: Server, fd: int, q: Numbered): Server {
    var c := q.request.client;
    if c >= |s.sockets| || c >= |s.expected| || (s.sockets[c] != NO_SOCKET && s.sockets[c] != fd) then s
    else
      var owned := s.(sockets := s.sockets[c := fd]);
      if q.num != s.expected[c] then owned
      else owned.(expected := s.expected[c := s.expected[c] + 1], accepted := s.accepted + [Entry(fd, q)])
  }

  function HandleAll(s: Server, fd: int, qs: seq<Numbered>): Server {
    if qs == [] then s else Handle(HandleAll(s, fd, qs[..|qs| - 1]), fd, qs[|qs| - 1])
  }

  lemma {:induction false} HandleInTwo(s: Server, fd: int, ps: seq<Numbered>, qs: seq<Numbered>)
    ensures HandleAll(s, fd, ps + qs) == HandleAll(HandleAll(s, fd, ps), fd, qs)
  {
    if qs == [] {
      assert ps + qs == ps;
    } else {
      HandleInTwo(s, fd, ps, qs[..|qs| - 1]);
      ConcatInit(ps, qs);
    }
  }

  lemma HandleNext(s: Server, fd: int, qs: seq<Numbered>, q: Numbered)
    ensures HandleAll(s, fd, qs + [q]) == Handle(HandleAll(s, fd, qs), fd, q)
  {
    assert (qs + [q])[..|qs|] == qs;
  }

  // ---------- reads ----------

  /** The server and the bytes each socket's buffer holds between reads. */
  datatype Intake = Intake(server: Server, left: map<int, Bytes>)

  datatype Read = Read(fd: int, chunk: Bytes)

  function Held(t: Intake, fd: int): Bytes {
    if fd in t.left then t.left[fd] else []
  }

  /** One read of a socket: handle what is whole, keep the rest. */
  function Receive(d: Decoder, t: Intake, r: Read): Intake {
    Intake(HandleAll(t.server, r.fd, Decoded(d, Held(t, r.fd) + r.chunk)),
           t.left[r.fd := Leftover(Held(t, r.fd) + r.chunk)])
  }

  /** The reads of any sockets, in any order. */
  function ReceiveAll(d: Decoder, t: Intake, rs: seq<Read>): Intake {
    if rs == [] then t else Receive(d, ReceiveAll(d, t, rs[..|rs| - 1]), rs[|rs| - 1])
  }

  /** Two reads in a row of one socket do what one read of both chunks does. */
  lemma ReadsMerge(d: Decoder, t: Intake, fd: int, a: Bytes, b: Bytes)
    ensures Receive(d, Receive(d, t, Read(fd, a)), Read(fd, b)) == Receive(d, t, Read(fd, a + b))
  {
    var held := Held(t, fd);
    assert held + (a + b) == (held + a) + b;
    DecodeInTwo(d, held + a, b);
    HandleInTwo(t.server, fd, Decoded(d, held + a), Decoded(d, Leftover(held + a) + b));
  }

  function Joined(chunks: seq<Bytes>): Bytes {
    if chunks == [] then [] else Joined(chunks[..|chunks| - 1]) + chunks[|chunks| - 1]
  }

  function ReadsOf(fd: int, chunks: seq<Bytes>): (rs: seq<Read>)
    ensures |rs| == |chunks| && forall i :: 0 <= i < |rs| ==> rs[i] == Read(fd, chunks[i])
  {
    seq(|chunks|, i requires 0 <= i < |chunks| => Read(fd, chunks[i]))
  }

  lemma {:induction false} ChunksMerge(d: Decoder, t: Intake, fd: int, chunks: seq<Bytes>)
    requires chunks != []
    ensures ReceiveAll(d, t, ReadsOf(fd, chunks)) == Receive(d, t, Read(fd, Joined(chunks)))
  {
    var init, last := chunks[..|chunks| - 1], chunks[|chunks| - 1];
    assert ReadsOf(fd, chunks)[..|chunks| - 1] == ReadsOf(fd, init);
    if init == [] {
      NothingBefore(last);
    } else {
      ChunksMerge(d, t, fd, init);
      ReadsMerge(d, t, fd, Joined(init), last);
    }
  }

  /** However a socket's bytes are cut into reads in a row, the outcome is that of decoding them all at once. */
  lemma ChunkingDoesNotMatter(d: Decoder, t: Intake, fd: int, chunks: seq<Bytes>)
    requires chunks != []
    ensures var r := ReceiveAll(d, t, ReadsOf(fd, chunks));
            && r.server == HandleAll(t.server, fd, Decoded(d, Held(t, fd) + Joined(chunks)))
            && Held(r, fd) == Leftover(Held(t, fd) + Joined(chunks))
            && forall other :: other != fd ==> Held(r, other) == Held(t, other)
  {
    ChunksMerge(d, t, fd, chunks);
  }

  // ---------- sockets read in any order ----------

  function EntriesOf(fd: int, qs: seq<Numbered>): (es: seq<Entry>)
    ensures |es| == |qs| && forall i :: 0 <= i < |qs| ==> es[i] == Entry(fd, qs[i])
  {
    seq(|qs|, i requires 0 <= i < |qs| => Entry(fd, qs[i]))
  }

  /** Everything handled, in order, each request with its socket. */
  function HandledIn(d: Decoder, t: Intake, rs: seq<Read>): seq<Entry> {
    if rs == [] then []
    else
      var init, last := rs[..|rs| - 1], rs[|rs| - 1];
      HandledIn(d, t, init) + EntriesOf(last.fd, Decoded(d, Held(ReceiveAll(d, t, init), last.fd) + last.chunk))
  }

  function HandleEntries(s: Server, es: seq<Entry>): Server {
    if es == [] then s else Handle(HandleEntries(s, es[..|es| - 1]), es[|es| - 1].fd, es[|es| - 1].request)
  }

  /** The requests of one socket among those of all. */
  function FromSocket(es: seq<Entry>, fd: int): seq<Numbered> {
    if es == [] then []
    else if es[|es| - 1].fd == fd then FromSocket(es[..|es| - 1], fd) + [es[|es| - 1].request]
    else FromSocket(es[..|es| - 1], fd)
  }

  /** All bytes read off one socket. */
  function BytesOf(rs: seq<Read>, fd: int): Bytes {
    if rs == [] then []
    else if rs[|rs| - 1].fd == fd then BytesOf(rs[..|rs| - 1], fd) + rs[|rs| - 1].chunk
    else BytesOf(rs[..|rs| - 1], fd)
  }

  lemma EntriesInit(es: seq<Entry>, fd: int, qs: seq<Numbered>)
    requires qs != []
    ensures var all := es + EntriesOf(fd, qs);
            && all != [] && all[..|all| - 1] == es + EntriesOf(fd, qs[..|qs| - 1])
            && all[|all| - 1] == Entry(fd, qs[|qs| - 1])
  {
    ConcatInit(es, EntriesOf(fd, qs));
    assert EntriesOf(fd, qs)[..|qs| - 1] == EntriesOf(fd, qs[..|qs| - 1]);
  }

  lemma NothingBehind<T>(s: seq<T>)
    ensures s + [] == s
  {
  }

  lemma {:induction false} FromSocketAppends(es: seq<Entry>, from: int, qs: seq<Numbered>, fd: int)
    ensures FromSocket(es + EntriesOf(from, qs), fd)
         == if from == fd then FromSocket(es, fd) + qs else FromSocket(es, fd)
  {
    if qs == [] {
      NothingBehind(es);
      NothingBehind(FromSocket(es, fd));
    } else {
      FromSocketAppends(es, from, qs[..|qs| - 1], fd);
      EntriesInit(es, from, qs);
      ConcatLast(FromSocket(es, fd), qs);
    }
  }

  lemma {:induction false} HandleEntriesAppends(s: Server, es: seq<Entry>, fd: int, qs: seq<Numbered>)
    ensures HandleEntries(s, es + EntriesOf(fd, qs)) == HandleAll(HandleEntries(s, es), fd, qs)
  {
    if qs == [] {
      NothingBehind(es);
    } else {
      HandleEntriesAppends(s, es, fd, qs[..|qs| - 1]);
      EntriesInit(es, fd, qs);
    }
  }

  /** One more read of the socket, with `held` left over from the bytes before. */
  lemma SocketStep(d: Decoder, es: seq<Entry>, fd: int, before: Bytes, held: Bytes, chunk: Bytes)
    requires FromSocket(es, fd) == Decoded(d, before) && held == Leftover(before)
    ensures FromSocket(es + EntriesOf(fd, Decoded(d, held + chunk)), fd) == Decoded(d, before + chunk)
    ensures Leftover(held + chunk) == Leftover(before + chunk)
  {
    FromSocketAppends(es, fd, Decoded(d, held + chunk), fd);
    DecodeInTwo(d, before, chunk);
  }

  /** The bytes of a socket left from before and those read since. */
  function AllBytes(t: Intake, rs: seq<Read>, fd: int): Bytes {
    Held(t, fd) + BytesOf(rs, fd)
  }

  lemma BytesNext(t: Intake, rs: seq<Read>, fd: int)
    requires rs != []
    ensures AllBytes(t, rs, fd) == if rs[|rs| - 1].fd == fd then AllBytes(t, rs[..|rs| - 1], fd) + rs[|rs| - 1].chunk
                                   else AllBytes(t, rs[..|rs| - 1], fd)
  {
    JoinsEitherWay(Held(t, fd), BytesOf(rs[..|rs| - 1], fd), rs[|rs| - 1].chunk);
  }

  lemma NothingReadYet(d: Decoder, t: Intake, fd: int)
    requires |Held(t, fd)| < REQUEST_SIZE
    ensures Decoded(d, AllBytes(t, [], fd)) == [] && Leftover(AllBytes(t, [], fd)) == Held(t, fd)
  {
    assert Held(t, fd) + [] == Held(t, fd);
  }

  lemma {:induction false} SocketDecodes(d: Decoder, t: Intake, rs: seq<Read>, fd: int)
    requires |Held(t, fd)| < REQUEST_SIZE
    ensures FromSocket(HandledIn(d, t, rs), fd) == Decoded(d, AllBytes(t, rs, fd))
    ensures Held(ReceiveAll(d, t, rs), fd) == Leftover(AllBytes(t, rs, fd))
  {
    if rs == [] {
      NothingReadYet(d, t, fd);
    } else {
      var init, last := rs[..|rs| - 1], rs[|rs| - 1];
      var es, held := HandledIn(d, t, init), Held(ReceiveAll(d, t, init), last.fd);
      SocketDecodes(d, t, init, fd);
      BytesNext(t, rs, fd);
      if last.fd == fd {
        SocketStep(d, es, fd, AllBytes(t, init, fd), held, last.chunk);
      } else {
        FromSocketAppends(es, last.fd, Decoded(d, held + last.chunk), fd);
      }
    }
  }

  lemma {:induction false} ServerHandles(d: Decoder, t: Intake, rs: seq<Read>)
    ensures ReceiveAll(d, t, rs).server == HandleEntries(t.server, HandledIn(d, t, rs))
  {
    if rs != [] {
      var init, last := rs[..|rs| - 1], rs[|rs| - 1];
      ServerHandles(d, t, init);
      HandleEntriesAppends(t.server, HandledIn(d, t, init), last.fd,
                           Decoded(d, Held(ReceiveAll(d, t, init), last.fd) + last.chunk));
    }
  }

  /**
   The sockets' reads may come cut in any way and mixed in any order: the requests handled from a socket are
   those its own bytes decode to, and the server is where handling all sockets' requests in order takes it.
   */
  lemma SocketsDoNotMix(d: Decoder, t: Intake, rs: seq<Read>, fd: int)
    requires |Held(t, fd)| < REQUEST_SIZE
    ensures FromSocket(HandledIn(d, t, rs), fd) == Decoded(d, AllBytes(t, rs, fd))
    ensures Held(ReceiveAll(d, t, rs), fd) == Leftover(AllBytes(t, rs, fd))
    ensures ReceiveAll(d, t, rs).server == HandleEntries(t.server, HandledIn(d, t, rs))
  {
    SocketDecodes(d, t, rs, fd);
    ServerHandles(d, t, rs);
  }

  // ---------- every client's requests ----------

  /** The sequence numbers accepted for a client, in order. */
  function NumbersOf(es: seq<Entry>, client: nat): seq<nat> {
    if es == [] then []
    else
      var e := es[|es| - 1];
      if e.request.request.client == client then NumbersOf(es[..|es| - 1], client) + [e.request.num]
      else NumbersOf(es[..|es| - 1], client)
  }

  function OneTo(k: nat): (r: seq<nat>)
    ensures |r| == k && forall i :: 0 <= i < k ==> r[i] == i + 1
  {
    seq(k, i requires 0 <= i < k => i + 1)
  }

  ghost predicate Shaped(s: Server) {
    |s.sockets| == MAX_CLIENTS && |s.expected| == MAX_CLIENTS
  }

  /** The client's accepted numbers are 1 up to the last one before the next expected. */
  ghost predicate InSequence(s: Server, client: nat) {
    && client < |s.expected| && s.expected[client] >= 1
    && NumbersOf(s.accepted, client) == OneTo(s.expected[client] - 1)
  }

  /** The accepted request came from the socket its client is bound to. */
  ghost predicate OneSocket(s: Server, e: Entry) {
    e.request.request.client < |s.sockets| && s.sockets[e.request.request.client] == e.fd != NO_SOCKET
  }

  ghost predicate ServerInv(s: Server) {
    && Shaped(s)
    && (forall c {:trigger InSequence(s, c)} :: 0 <= c < MAX_CLIENTS ==> InSequence(s, c))
    && (forall i :: 0 <= i < |s.accepted| ==> OneSocket(s, s.accepted[i]))
  }

  function Start(): Server {
    Server(seq(MAX_CLIENTS, _ => NO_SOCKET), seq(MAX_CLIENTS, _ => 1), [])
  }

  lemma HandleKeepsInv(s: Server, fd: int, q: Numbered)
    requires ServerInv(s) && fd != NO_SOCKET
    ensures ServerInv(Handle(s, fd, q))
  {
    var r := Handle(s, fd, q);
    forall c | 0 <= c < MAX_CLIENTS ensures InSequence(r, c) {
      assert InSequence(s, c);
      if r.accepted != s.accepted {
        assert r.accepted[..|s.accepted|] == s.accepted;
      }
    }
    forall i | 0 <= i < |r.accepted| ensures OneSocket(r, r.accepted[i]) {
      if i < |s.accepted| {
        assert OneSocket(s, s.accepted[i]);
      }
    }
  }

  lemma {:induction false} HandleAllKeepsInv(s: Server, fd: int, qs: seq<Numbered>)
    requires ServerInv(s) && fd != NO_SOCKET
    ensures ServerInv(HandleAll(s, fd, qs))
  {
    if qs != [] {
      HandleAllKeepsInv(s, fd, qs[..|qs| - 1]);
      HandleKeepsInv(HandleAll(s, fd, qs[..|qs| - 1]), fd, qs[|qs| - 1]);
    }
  }

  lemma StartInv()
    ensures ServerInv(Start())
  {
    forall c | 0 <= c < MAX_CLIENTS ensures InSequence(Start(), c) {
      assert OneTo(0) == [];
    }
  }

  lemma {:induction false} ReadsKeepInv(d: Decoder, rs: seq<Read>)
    requires forall i :: 0 <= i < |rs| ==> rs[i].fd != NO_SOCKET
    ensures ServerInv(ReceiveAll(d, Intake(Start(), map[]), rs).server)
  {
    if rs == [] {
      StartInv();
    } else {
      var before, last := ReceiveAll(d, Intake(Start(), map[]), rs[..|rs| - 1]), rs[|rs| - 1];
      ReadsKeepInv(d, rs[..|rs| - 1]);
      HandleAllKeepsInv(before.server, last.fd, Decoded(d, Held(before, last.fd) + last.chunk));
    }
  }

  /** Over all sockets and reads, each client's accepted requests are numbered 1 to k without a gap, off one socket. */
  lemma ClientsInSequence(d: Decoder, rs: seq<Read>, client: nat)
    requires client < MAX_CLIENTS && forall i :: 0 <= i < |rs| ==> rs[i].fd != NO_SOCKET
    ensures var s := ReceiveAll(d, Intake(Start(), map[]), rs).server;
            && Shaped(s) && s.expected[client] >= 1
            && NumbersOf(s.accepted, client) == OneTo(s.expected[client] - 1)
            && forall i :: 0 <= i < |s.accepted| && s.accepted[i].request.request.client == client ==>
               s.accepted[i].fd == s.sockets[client]
  {
    ReadsKeepInv(d, rs);
    var s := ReceiveAll(d, Intake(Start(), map[]), rs).server;
    assert InSequence(s, client);
    assert forall i :: 0 <= i < |s.accepted| ==> OneSocket(s, s.accepted[i]);
  }

  // ---------- who speaks for a client, and what is accepted ----------

  /** The first socket a request of the client came from. */
  function FirstSocket(es: seq<Entry>, client: nat): int {
    if es == [] then NO_SOCKET
    else
      var before, e := FirstSocket(es[..|es| - 1], client), es[|es| - 1];
      if before == NO_SOCKET && e.request.request.client == client then e.fd else before
  }

  /** What came from its client's first socket, numbered one past what had been accepted for that client. */
  function AcceptedOf(es: seq<Entry>): seq<Entry> {
    if es == [] then []
    else
      var before, e := AcceptedOf(es[..|es| - 1]), es[|es| - 1];
      var client := e.request.request.client;
      if client < MAX_CLIENTS && e.fd == FirstSocket(es, client) && e.request.num == |NumbersOf(before, client)| + 1
      then before + [e] else before
  }

  ghost predicate RealSockets(es: seq<Entry>) {
    forall i :: 0 <= i < |es| ==> es[i].fd != NO_SOCKET
  }

  /** `FirstSocket` is the socket of the first of the client's requests. */
  lemma {:induction false} FirstSocketIs(es: seq<Entry>, client: nat, i: nat)
    requires RealSockets(es) && i < |es| && es[i].request.request.client == client
    requires forall j :: 0 <= j < i ==> es[j].request.request.client != client
    ensures FirstSocket(es, client) == es[i].fd
  {
    var init := es[..|es| - 1];
    if i < |es| - 1 {
      FirstSocketIs(init, client, i);
    } else {
      NoSocketYet(init, client);
    }
  }

  lemma {:induction false} NoSocketYet(es: seq<Entry>, client: nat)
    requires forall j :: 0 <= j < |es| ==> es[j].request.request.client != client
    ensures FirstSocket(es, client) == NO_SOCKET
  {
    if es != [] {
      NoSocketYet(es[..|es| - 1], client);
    }
  }

  /** The client's slot in the tables, after handling `es`. */
  ghost predicate SlotIs(s: Server, es: seq<Entry>, client: nat) {
    && client < |s.sockets| && client < |s.expected|
    && s.sockets[client] == FirstSocket(es, client)
    && s.expected[client] == |NumbersOf(AcceptedOf(es), client)| + 1
  }

  ghost predicate Handled(s: Server, es: seq<Entry>) {
    && Shaped(s) && s.accepted == AcceptedOf(es)
    && forall c {:trigger SlotIs(s, es, c)} :: 0 <= c < MAX_CLIENTS ==> SlotIs(s, es, c)
  }

  lemma AppendsNumber(es: seq<Entry>, e: Entry, client: nat)
    ensures NumbersOf(es + [e], client)
         == if e.request.request.client == client then NumbersOf(es, client) + [e.request.num]
            else NumbersOf(es, client)
  {
    assert (es + [e])[..|es|] == es;
  }

  lemma HandledNext(s: Server, es: seq<Entry>, r: Server)
    requires es != [] && es[|es| - 1].fd != NO_SOCKET && Handled(s, es[..|es| - 1])
    requires r == Handle(s, es[|es| - 1].fd, es[|es| - 1].request)
    ensures Handled(r, es)
  {
    var init, e := es[..|es| - 1], es[|es| - 1];
    var client := e.request.request.client;
    if client < MAX_CLIENTS {
      assert SlotIs(s, init, client);
    }
    forall c | 0 <= c < MAX_CLIENTS ensures SlotIs(r, es, c) {
      assert SlotIs(s, init, c);
      AppendsNumber(AcceptedOf(init), e, c);
    }
  }

  /**
   After handling any requests in any order, each client is bound to the first socket that spoke for it, whatever
   became of that request, and accepted is exactly what came from there in sequence.
   */
  lemma {:induction false} HandledExactly(es: seq<Entry>)
    requires RealSockets(es)
    ensures Handled(HandleEntries(Start(), es), es)
  {
    if es == [] {
      forall c | 0 <= c < MAX_CLIENTS ensures SlotIs(Start(), [], c) {
      }
    } else {
      HandledExactly(es[..|es| - 1]);
      HandledNext(HandleEntries(Start(), es[..|es| - 1]), es, HandleEntries(Start(), es));
    }
  }

  lemma {:induction false} HandledAreReal(d: Decoder, t: Intake, rs: seq<Read>)
    requires forall i :: 0 <= i < |rs| ==> rs[i].fd != NO_SOCKET
    ensures RealSockets(HandledIn(d, t, rs))
  {
    if rs != [] {
      HandledAreReal(d, t, rs[..|rs| - 1]);
    }
  }

  /** The same for any reads of any sockets. */
  lemma ReadsHandledExactly(d: Decoder, rs: seq<Read>)
    requires forall i :: 0 <= i < |rs| ==> rs[i].fd != NO_SOCKET
    ensures var t := Intake(Start(), map[]);
            Handled(ReceiveAll(d, t, rs).server, HandledIn(d, t, rs))
  {
    var t := Intake(Start(), map[]);
    HandledAreReal(d, t, rs);
    HandledExactly(HandledIn(d, t, rs));
    ServerHandles(d, t, rs);
  }

  /** A fresh server whose client speaks out of turn first, and then in turn from another socket, accepts neither. */
  lemma OutOfTurnStillBinds(q: Numbered, q': Numbered)
    requires q.num == 2 && q'.num == 1 && q.request.client == q'.request.client == 3
    ensures var s := HandleEntries(Start(), [Entry(7, q), Entry(8, q')]);
            |s.sockets| > 3 && s.sockets[3] == 7 && s.accepted == []
  {
    var es := [Entry(7, q), Entry(8, q')];
    assert es[..1] == [Entry(7, q)] && es[..1][..0] == [];
    assert HandleEntries(Start(), []) == Start();
  }

  /** A client that keeps to one socket and numbers its requests without a gap has every one of them accepted. */
  lemma {:induction false} InOrderIsAccepted(s: Server, fd: int, qs: seq<Numbered>, client: nat)
    requires client < |s.sockets| && client < |s.expected| && s.sockets[client] in {NO_SOCKET, fd}
    requires forall i :: 0 <= i < |qs| ==> qs[i].request.client == client && qs[i].num == s.expected[client] + i
    ensures var r := HandleAll(s, fd, qs);
            && r.accepted == s.accepted + EntriesOf(fd, qs)
            && |r.sockets| == |s.sockets| && |r.expected| == |s.expected|
            && r.expected[client] == s.expected[client] + |qs| && r.sockets[client] in {NO_SOCKET, fd}
  {
    if qs != [] {
      var init, last := qs[..|qs| - 1], qs[|qs| - 1];
      InOrderIsAccepted(s, fd, init, client);
      assert EntriesOf(fd, qs) == EntriesOf(fd, init) + [Entry(fd, last)];
    }
  }

  // ---------- the socket's buffer and the server's tables ----------

  class TCPSocket {
    const fd: int
    const recvBuffer: array<bv8>
    var recvNextValidIdx: nat

    ghost predicate Valid()
      reads this, recvBuffer
    {
      recvNextValidIdx <= recvBuffer.Length
    }

    /** The bytes received and not yet consumed. */
    ghost function Contents(): Bytes
      requires Valid()
      reads this, recvBuffer
    {
      recvBuffer[..recvNextValidIdx]
    }

    constructor (fd: int, size: nat)
      ensures Valid() && Contents() == [] && this.fd == fd && recvBuffer.Length == size && fresh(recvBuffer)
    {
      this.fd := fd;
      recvBuffer := new bv8[size](_ => 0);
      recvNextValidIdx := 0;
    }

    /** A read appends to the buffer. */
    method Read(chunk: Bytes)
      requires Valid() && recvNextValidIdx + |chunk| <= recvBuffer.Length
      modifies this, recvBuffer
      ensures Valid() && Contents() == old(Contents()) + chunk
    {
      var i := 0;
      while i < |chunk|
        invariant i <= |chunk| && recvNextValidIdx == old(recvNextValidIdx)
        invariant recvBuffer[..recvNextValidIdx + i] == old(recvBuffer[..recvNextValidIdx]) + chunk[..i]
      {
        recvBuffer[recvNextValidIdx + i] := chunk[i];
        i := i + 1;
      }
      recvNextValidIdx := recvNextValidIdx + |chunk|;
      assert chunk[..i] == chunk;
    }

    /** The `n` bytes at offset `i`. */
    method Peek(i: nat, n: nat) returns (bytes: Bytes)
      requires Valid() && i + n <= recvNextValidIdx
      ensures bytes == Contents()[i..i + n]
    {
      bytes := recvBuffer[i..i + n];
    }

    /** Moves what is behind the first `i` bytes to the front, byte by byte. */
    method Shift(i: nat)
      requires Valid() && i <= recvNextValidIdx
      modifies this, recvBuffer
      ensures Valid() && Contents() == old(Contents())[i..]
    {
      var n := recvNextValidIdx - i;
      var j := 0;
      while j < n
        invariant j <= n && recvNextValidIdx == old(recvNextValidIdx)
        invariant forall k :: 0 <= k < j ==> recvBuffer[k] == old(recvBuffer[..])[k + i]
        invariant forall k :: j <= k < recvBuffer.Length ==> recvBuffer[k] == old(recvBuffer[..])[k]
      {
        recvBuffer[j] := recvBuffer[j + i];
        j := j + 1;
      }
      recvNextValidIdx := n;
    }
  }

  class OrderServer {
    const decode: Decoder
    const cidToSocket: array<int>
    const cidNextExpSeqNum: array<nat>
    /** Everything handed to the sequencer, in order. */
    var accepted: seq<Entry>

    ghost predicate Valid()
      reads this
    {
      cidToSocket.Length == MAX_CLIENTS && cidNextExpSeqNum.Length == MAX_CLIENTS
          && cidToSocket as object != cidNextExpSeqNum
    }

    ghost function State(): Server
      reads this, cidToSocket, cidNextExpSeqNum
    {
      Server(cidToSocket[..], cidNextExpSeqNum[..], accepted)
    }

    constructor (decode: Decoder)
      ensures Valid() && State() == Start() && this.decode == decode && fresh(cidToSocket) && fresh(cidNextExpSeqNum)
    {
      this.decode := decode;
      cidToSocket := new int[MAX_CLIENTS](_ => NO_SOCKET);
      cidNextExpSeqNum := new nat[MAX_CLIENTS](_ => 1);
      accepted := [];
    }

    /** Takes every whole request out of the socket's buffer and shifts the rest to its front. */
    method RecvCallbacks(socket: TCPSocket)
      requires Valid() && socket.Valid()
      requires {socket as object, socket.recvBuffer} !! {this as object, cidToSocket, cidNextExpSeqNum}
      requires Addressed(Decoded(decode, socket.Contents()))
      modifies this, cidToSocket, cidNextExpSeqNum, socket, socket.recvBuffer
      ensures Valid() && socket.Valid()
      ensures State() == HandleAll(old(State()), socket.fd, Decoded(decode, old(socket.Contents())))
      ensures socket.Contents() == Leftover(old(socket.Contents()))
    {
      ghost var start, bytes := State(), socket.Contents();
      ghost var done := [];
      DecodeFirst(decode, bytes);
      var i := 0;
      while i + REQUEST_SIZE <= socket.recvNextValidIdx
        invariant Valid() && socket.Valid() && socket.Contents() == bytes
        invariant DecodedUpTo(decode, bytes, i, done)
        invariant State() == HandleAll(start, socket.fd, done)
      {
        var frame := socket.Peek(i, REQUEST_SIZE);
        var request := decode(frame);
        DecodeNext(decode, bytes, i, done, frame);
        HandleNext(start, socket.fd, done, request);
        HandleRequest(socket.fd, request);
        done := done + [request];
        i := i + REQUEST_SIZE;
      }
      DecodeLast(decode, bytes, i, done);
      socket.Shift(i);
    }

    /** A read and its callback take the step the model takes. */
    method OnReadable(socket: TCPSocket, chunk: Bytes, ghost t: Intake)
      requires Valid() && socket.Valid() && socket.recvNextValidIdx + |chunk| <= socket.recvBuffer.Length
      requires {socket as object, socket.recvBuffer} !! {this as object, cidToSocket, cidNextExpSeqNum}
      requires t.server == State() && Held(t, socket.fd) == socket.Contents()
      requires Addressed(Decoded(decode, socket.Contents() + chunk))
      modifies this, cidToSocket, cidNextExpSeqNum, socket, socket.recvBuffer
      ensures Valid() && socket.Valid()
      ensures var after := Receive(decode, t, Read.Read(socket.fd, chunk));
              after.server == State() && Held(after, socket.fd) == socket.Contents()
    {
      socket.Read(chunk);
      RecvCallbacks(socket);
    }

    method HandleRequest(fd: int, q: Numbered)
      requires Valid() && q.request.client < MAX_CLIENTS
      modifies this, cidToSocket, cidNextExpSeqNum
      ensures Valid() && State() == Handle(old(State()), fd, q)
    {
      var c := q.request.client;
      if cidToSocket[c] == NO_SOCKET {
        cidToSocket[c] := fd;
      } else if cidToSocket[c] != fd {
        return;
      }
      if cidNextExpSeqNum[c] != q.num {
        return;
      }
      cidNextExpSeqNum[c] := cidNextExpSeqNum[c] + 1;
      accepted := accepted + [Entry(fd, q)];
    }
  }
}
