/** The request side of the STUN client: one request, its retransmissions, and the single
    reply that ends them. */
module StunSession {
  import opened Integers
  import opened Options
  import opened Bytes
  import opened Stun

  const INITIAL_RTO := 1000
  const RTO_LIMIT := 38000

  datatype Signal = UpdatedSignal | ErrorSignal

  datatype Session = Session(
    data: seq<byte>,               // m_data, the request
    rto: int,
    timerActive: bool,
    listening: bool,               // process_data is connected to readyRead
    sent: seq<seq<byte>>,          // every datagram written, oldest first
    signals: seq<Signal>,          // every signal emitted, oldest first
    mapped: Option<EndPoint>)

  /** prepare_data: type, length 0, cookie and transaction id, all big-endian. */
  function Prepared(host: Host, id: (u32, u32, u32)): (b: seq<byte>)
    ensures |b| == 20 && b[8..20] == Put32(id.0) + Put32(id.1) + Put32(id.2)
  {
    Put16(0x0001) + Put16(0) + Put32(StoredCookie(host)) + Put32(id.0) + Put32(id.1) + Put32(id.2)
  }

  /** The packet is a binding request of length 0; its cookie is in host-swapped order, and
      the transaction id follows. */
  lemma RequestBytes(host: Host, id: (u32, u32, u32))
    ensures var b := Prepared(host, id);
      && b[..4] == [0x00, 0x01, 0x00, 0x00]
      && b[4..8] == (if host.BigEndian? then [0x21, 0x12, 0xA4, 0x42] else [0x42, 0xA4, 0x12, 0x21])
      && b[8..20] == Put32(id.0) + Put32(id.1) + Put32(id.2)
  {
    var cookie := Put32(StoredCookie(host));
    assert Put16(0x0001) == [0x00, 0x01] && Put16(0) == [0x00, 0x00];
    assert Prepared(host, id)[4..8] == cookie;
    PutBe32([0x21, 0x12, 0xA4, 0x42]);
    PutBe32([0x42, 0xA4, 0x12, 0x21]);
    assert Be32([0x21, 0x12, 0xA4, 0x42]) == MAGIC_COOKIE;
    assert Be32([0x42, 0xA4, 0x12, 0x21]) == Swap32(MAGIC_COOKIE);
  }

  /** send_request and wait_response. */
  function Started(request: seq<byte>, rto: int): Session {
    Session(request, rto, true, true, [request], [], None)
  }

  /** resend_request: past the limit the timer stops, but this datagram is still sent. */
  function Resent(limit: int, s: Session): Session {
    s.(timerActive := s.timerActive && s.rto <= limit, rto := s.rto * 2 + 500, sent := s.sent + [s.data])
  }

  /** process_data; None when no bytes are available. */
  function Processed(host: Host, s: Session, datagram: Option<seq<byte>>): Session
    requires |s.data| == 20
  {
    var q := s.(timerActive := false, listening := false);
    if datagram.None? then q
    else match Reply(host, s.data[8..20], datagram.value)
         case ServerError => q.(signals := q.signals + [ErrorSignal])
         case ForeignTransaction => q.(signals := q.signals + [ErrorSignal])
         case Undefined => q
         case Updated(m) =>
           q.(mapped := if m.Some? then m else q.mapped, data := [], signals := q.signals + [UpdatedSignal])
  }

  class StunClient {
    const host: Host
    var data: seq<byte>
    var rto: int
    var timerActive: bool
    var listening: bool
    var mapped: Option<EndPoint>
    var sent: seq<seq<byte>>
    var signals: seq<Signal>

    ghost function View(): Session reads this {
      Session(data, rto, timerActive, listening, sent, signals, mapped)
    }

    constructor (host: Host, id: (u32, u32, u32))
      ensures this.host == host
      ensures View() == Started(Prepared(host, id), INITIAL_RTO)
    {
      this.host := host;
      mapped, rto, timerActive, listening, signals := None, INITIAL_RTO, false, false, [];
      data, sent := Prepared(host, id), [];
      new;
      SendRequest();
    }

    method SendRequest()
      modifies this
      ensures View() == old(View()).(sent := old(sent) + [data], timerActive := true, listening := true)
    {
      sent := sent + [data];
      listening := true;
      timerActive := true;
    }

    method ResendRequest()
      modifies this
      ensures View() == Resent(RTO_LIMIT, old(View()))
    {
      if rto > RTO_LIMIT {
        timerActive := false;
      }
      rto := rto * 2 + 500;
      sent := sent + [data];
    }

    method ProcessData(datagram: Option<seq<byte>>) returns (success: bool)
      requires |data| == 20
      modifies this
      ensures View() == Processed(host, old(View()), datagram)
      ensures success <==> signals == old(signals) + [UpdatedSignal]
      ensures datagram.Some? && |datagram.value| >= 20 ==>
                (signals == old(signals) + [ErrorSignal] <==>
                   (datagram.value[0] == 0x01 && datagram.value[1] == 0x11)
                   || datagram.value[8..20] != old(data)[8..20])
    {
      timerActive := false;
      listening := false;
      if datagram.None? {
        return false;
      }
      var outcome := ProcessReply(host, data[8..20], datagram.value);
      ServerErrorIff(host, data[8..20], datagram.value);
      ForeignIff(host, data[8..20], datagram.value);
      assert forall x, y :: signals + [x] == signals + [y] ==> (signals + [x])[|signals|] == y;
      match outcome {
        case Undefined => success := false;
        case Updated(m) =>
          if m.Some? { mapped := m; }
          data := [];
          signals := signals + [UpdatedSignal];
          success := true;
        case _ =>
          signals := signals + [ErrorSignal];
          assert signals[|signals| - 1] != UpdatedSignal;
          success := false;
      }
    }
  }

  /* ---------- every interleaving ---------- */

  datatype Event = Timeout | ReadyRead(datagram: Option<seq<byte>>)

  /** The timer fires only while active, and readyRead reaches a connected slot only. */
  function Step(host: Host, limit: int, s: Session, e: Event): Session {
    match e
    case Timeout => if s.timerActive then Resent(limit, s) else s
    case ReadyRead(d) => if s.listening && |s.data| == 20 then Processed(host, s, d) else s
  }

  function Run(host: Host, limit: int, s: Session, es: seq<Event>): Session {
    if es == [] then s else Step(host, limit, Run(host, limit, s, es[..|es| - 1]), es[|es| - 1])
  }

  predicate Echoes(transaction: seq<byte>, e: Event) {
    && e.ReadyRead? && e.datagram.Some?
    && |e.datagram.value| >= 20 && e.datagram.value[8..20] == transaction
  }

  /** A datagram of the run echoed the transaction id. */
  predicate Echoed(transaction: seq<byte>, es: seq<Event>) {
    exists i :: 0 <= i < |es| && Echoes(transaction, es[i])
  }

  ghost predicate Kept(request: seq<byte>, s: Session, es: seq<Event>)
    requires |request| == 20
  {
    && (forall i :: 0 <= i < |s.sent| ==> s.sent[i] == request)
    && |s.sent| >= 1
    && (s.timerActive ==> s.listening)
    && (s.listening ==> s.signals == [] && s.data == request)
    && |s.signals| <= 1
    && (s.signals == [UpdatedSignal] ==> Echoed(request[8..20], es))
  }

  lemma EchoedLonger(transaction: seq<byte>, es: seq<Event>)
    requires es != [] && Echoed(transaction, es[..|es| - 1])
    ensures Echoed(transaction, es)
  {
    var i :| 0 <= i < |es| - 1 && Echoes(transaction, es[..|es| - 1][i]);
    assert Echoes(transaction, es[i]);
  }

  /** What one event does to the signals and to the datagrams sent. */
  lemma StepEffect(host: Host, limit: int, s: Session, e: Event)
    requires s.listening ==> |s.data| == 20
    ensures var q := Step(host, limit, s, e);
      && (q == s || (s.timerActive && q == Resent(limit, s)) || (s.listening && !q.listening))
      && (s.listening && !q.listening ==>
            && !q.timerActive && q.sent == s.sent && q.rto == s.rto
            && (q.signals == s.signals || q.signals == s.signals + [ErrorSignal]
                || (q.signals == s.signals + [UpdatedSignal] && Echoes(s.data[8..20], e))))
  {
  }

  lemma {:induction false} RunKeeps(host: Host, limit: int, request: seq<byte>, rto: int, es: seq<Event>)
    requires |request| == 20
    ensures Kept(request, Run(host, limit, Started(request, rto), es), es)
  {
    if es != [] {
      var init, last := es[..|es| - 1], es[|es| - 1];
      RunKeeps(host, limit, request, rto, init);
      var s := Run(host, limit, Started(request, rto), init);
      StepEffect(host, limit, s, last);
      if Echoed(request[8..20], init) { EchoedLonger(request[8..20], es); }
      if Echoes(request[8..20], last) { assert Echoes(request[8..20], es[|es| - 1]); }
      assert [ErrorSignal][0] != UpdatedSignal && [] + [ErrorSignal] == [ErrorSignal];
    }
  }

  /** In every interleaving of timeouts and datagrams: at most one of `updated` and
      `processing_error` is emitted, `updated` only after a datagram that echoed the 12-byte
      transaction id, and every datagram sent is the request. */
  lemma AtMostOneSignal(host: Host, limit: int, id: (u32, u32, u32), rto: int, es: seq<Event>)
    ensures var request := Prepared(host, id);
            var s := Run(host, limit, Started(request, rto), es);
      && |s.signals| <= 1
      && (s.signals == [UpdatedSignal] ==> Echoed(Put32(id.0) + Put32(id.1) + Put32(id.2), es))
      && (forall i :: 0 <= i < |s.sent| ==> s.sent[i] == request)
  {
    RunKeeps(host, limit, Prepared(host, id), rto, es);
  }

  /** Once a signal is emitted nothing is sent, emitted or changed any more. */
  lemma {:induction false} SilentAfterSignal(
    host: Host, limit: int, id: (u32, u32, u32), rto: int, es: seq<Event>, later: seq<Event>)
    requires Run(host, limit, Started(Prepared(host, id), rto), es).signals != []
    ensures Run(host, limit, Started(Prepared(host, id), rto), es + later)
         == Run(host, limit, Started(Prepared(host, id), rto), es)
    decreases later
  {
    if later == [] {
      assert es + later == es;
    } else {
      var init := later[..|later| - 1];
      assert (es + later)[..|es + later| - 1] == es + init;
      SilentAfterSignal(host, limit, id, rto, es, init);
      RunKeeps(host, limit, Prepared(host, id), rto, es);
    }
  }

  /* ---------- retransmission ---------- */

  function Pow2(k: nat): nat {
    if k == 0 then 1 else 2 * Pow2(k - 1)
  }

  /** The timeout after k resends. */
  function RtoAfter(rto: int, k: nat): int {
    (rto + 500) * Pow2(k) - 500
  }

  lemma RtoDoubles(rto: int, k: nat)
    ensures RtoAfter(rto, k + 1) == RtoAfter(rto, k) * 2 + 500
    ensures RtoAfter(rto, 0) == rto
  {
    assert Pow2(k + 1) == 2 * Pow2(k);
    var a, p := rto + 500, Pow2(k);
    assert a * (2 * p) == 2 * (a * p);
  }

  /** The first number of resends whose timeout exceeds the limit. */
  ghost predicate FirstBeyond(rto: int, limit: int, k: nat) {
    RtoAfter(rto, k) > limit && forall j: nat :: j < k ==> RtoAfter(rto, j) <= limit
  }

  lemma {:induction false} Pow2Grows(k: nat)
    ensures Pow2(k) > k
  {
    if k > 0 { Pow2Grows(k - 1); }
  }

  /** Whatever the limit, a positive timeout passes it after finitely many resends. */
  lemma {:induction false} FirstBeyondExists(rto: int, limit: int, k: nat) returns (first: nat)
    requires rto > 0
    requires forall j: nat :: j < k ==> RtoAfter(rto, j) <= limit
    ensures FirstBeyond(rto, limit, first) && first >= k
    decreases limit + 500 - k
  {
    if RtoAfter(rto, k) > limit {
      first := k;
    } else {
      Pow2Grows(k);
      assert (rto + 500) * Pow2(k) >= Pow2(k);
      first := FirstBeyondExists(rto, limit, k + 1);
    }
  }

  /** In every interleaving the timeout is (r + 500) * 2^k - 500 after k resends, and no more
      than k* + 2 datagrams are sent, the timer having stopped by then. */
  lemma {:induction false} SentBound(
    host: Host, limit: int, request: seq<byte>, rto: int, es: seq<Event>, first: nat)
    requires |request| == 20 && FirstBeyond(rto, limit, first)
    ensures var s := Run(host, limit, Started(request, rto), es);
      && 1 <= |s.sent| <= first + 2
      && s.rto == RtoAfter(rto, |s.sent| - 1)
      && (s.timerActive ==> |s.sent| <= first + 1)
  {
    RtoDoubles(rto, 0);
    if es != [] {
      var init, last := es[..|es| - 1], es[|es| - 1];
      SentBound(host, limit, request, rto, init, first);
      RunKeeps(host, limit, request, rto, init);
      var s := Run(host, limit, Started(request, rto), init);
      StepEffect(host, limit, s, last);
      RtoDoubles(rto, |s.sent| - 1);
    }
  }

  // m_rto is an int
  const RTO_MAX := (INT_MAX - 500) / 2
  const LIMIT_MAX := (INT_MAX - 1500) / 4

  /** No timeout ever computed overflows, in any interleaving, when the limit is at most
      536870536 and the initial timeout at most 1073741573. */
  lemma {:induction false} TimeoutsFit(host: Host, limit: int, request: seq<byte>, rto: int, es: seq<Event>)
    requires |request| == 20 && 0 < rto <= RTO_MAX && 0 <= limit <= LIMIT_MAX
    ensures var s := Run(host, limit, Started(request, rto), es);
      && 0 < s.rto <= INT_MAX
      && (s.timerActive ==> s.rto <= RTO_MAX)
  {
    if es != [] {
      var init, last := es[..|es| - 1], es[|es| - 1];
      TimeoutsFit(host, limit, request, rto, init);
      RunKeeps(host, limit, request, rto, init);
      StepEffect(host, limit, Run(host, limit, Started(request, rto), init), last);
    }
  }

  /** The bound on the limit is tight: past it, a timeout equal to the limit is doubled twice
      and leaves the range. */
  lemma TimeoutsOverflow(host: Host, limit: int, request: seq<byte>)
    requires limit > LIMIT_MAX
    ensures Run(host, limit, Started(request, limit), Timeouts(2)).rto > INT_MAX
  {
    var s := Started(request, limit);
    assert Timeouts(2)[..1] == Timeouts(1) && Timeouts(1)[..0] == [];
    assert Run(host, limit, s, []) == s;
    assert Run(host, limit, s, Timeouts(1)) == Step(host, limit, s, Timeout);
  }

  function Timeouts(n: nat): (es: seq<Event>)
    ensures |es| == n
  {
    seq(n, _ => Timeout)
  }

  /** Without a reply, n timeouts send n more datagrams, up to k* + 2 in all. */
  lemma {:induction false} SentWithoutReply(
    host: Host, limit: int, request: seq<byte>, rto: int, n: nat, first: nat)
    requires |request| == 20 && FirstBeyond(rto, limit, first)
    ensures var s := Run(host, limit, Started(request, rto), Timeouts(n));
      && |s.sent| == 1 + (if n <= first + 1 then n else first + 1)
      && (s.timerActive <==> n <= first)
  {
    if n > 0 {
      assert Timeouts(n)[..n - 1] == Timeouts(n - 1);
      SentWithoutReply(host, limit, request, rto, n - 1, first);
      SentBound(host, limit, request, rto, Timeouts(n - 1), first);
    }
  }

  /** With the code's 1000 and 38000 at most 7 requests are sent, the Rc of section 7.2.1 of
      RFC 5389, and exactly 7 when nobody answers. */
  lemma AtMostSevenRequests(host: Host, id: (u32, u32, u32), es: seq<Event>, n: nat)
    ensures |Run(host, RTO_LIMIT, Started(Prepared(host, id), INITIAL_RTO), es).sent| <= 7
    ensures n >= 6 ==> |Run(host, RTO_LIMIT, Started(Prepared(host, id), INITIAL_RTO), Timeouts(n)).sent| == 7
  {
    assert Pow2(1) == 2 && Pow2(2) == 4 && Pow2(3) == 8 && Pow2(4) == 16 && Pow2(5) == 32;
    assert RtoAfter(INITIAL_RTO, 5) == 47500 && RtoAfter(INITIAL_RTO, 4) == 23500;
    forall j: nat | j < 5 ensures RtoAfter(INITIAL_RTO, j) <= RTO_LIMIT {
      assert j == 0 || j == 1 || j == 2 || j == 3 || j == 4;
    }
    assert FirstBeyond(INITIAL_RTO, RTO_LIMIT, 5);
    SentBound(host, RTO_LIMIT, Prepared(host, id), INITIAL_RTO, es, 5);
    SentWithoutReply(host, RTO_LIMIT, Prepared(host, id), INITIAL_RTO, n, 5);
  }

  /** The reply is awaited exactly until the first datagram. */
  lemma {:induction false} ListeningIff(host: Host, limit: int, request: seq<byte>, rto: int, es: seq<Event>)
    requires |request| == 20
    ensures Run(host, limit, Started(request, rto), es).listening
       <==> forall i :: 0 <= i < |es| ==> es[i].Timeout?
  {
    if es != [] {
      var init, last := es[..|es| - 1], es[|es| - 1];
      ListeningIff(host, limit, request, rto, init);
      RunKeeps(host, limit, request, rto, init);
      if last.Timeout? && forall i :: 0 <= i < |init| ==> init[i].Timeout? {
        forall i | 0 <= i < |es| ensures es[i].Timeout? {
          if i < |init| { assert es[i] == init[i]; }
        }
      }
      if forall i :: 0 <= i < |es| ==> es[i].Timeout? {
        forall i | 0 <= i < |init| ensures init[i].Timeout? { assert init[i] == es[i]; }
      }
    }
  }

  /** Nothing is known of the address before an answer. */
  lemma {:induction false} UnmappedWhileListening(
    host: Host, limit: int, request: seq<byte>, rto: int, es: seq<Event>)
    requires |request| == 20 && Run(host, limit, Started(request, rto), es).listening
    ensures Run(host, limit, Started(request, rto), es).mapped == None
  {
    if es != [] {
      RunKeeps(host, limit, request, rto, es[..|es| - 1]);
      UnmappedWhileListening(host, limit, request, rto, es[..|es| - 1]);
    }
  }

  /** The first datagram after any timeouts ends the session, sends nothing, and emits what it
      means: an error for an error response or a foreign one, an update for an answer, and
      nothing when there are no bytes or a slice fails. */
  lemma FirstDatagramEnds(
    host: Host, limit: int, id: (u32, u32, u32), rto: int, es: seq<Event>, datagram: Option<seq<byte>>)
    requires Run(host, limit, Started(Prepared(host, id), rto), es).listening
    ensures var r := Run(host, limit, Started(Prepared(host, id), rto), es);
            var s := Run(host, limit, Started(Prepared(host, id), rto), es + [ReadyRead(datagram)]);
      && !s.timerActive && !s.listening && s.sent == r.sent && s.rto == r.rto
      && (datagram == None ==> s.signals == [] && s.mapped == None)
      && (datagram.Some? ==>
            match Reply(host, Put32(id.0) + Put32(id.1) + Put32(id.2), datagram.value)
            case ServerError => s.signals == [ErrorSignal] && s.mapped == None
            case ForeignTransaction => s.signals == [ErrorSignal] && s.mapped == None
            case Undefined => s.signals == [] && s.mapped == None
            case Updated(m) => s.signals == [UpdatedSignal] && s.mapped == m)
  {
    RunKeeps(host, limit, Prepared(host, id), rto, es);
    UnmappedWhileListening(host, limit, Prepared(host, id), rto, es);
    var all := es + [ReadyRead(datagram)];
    assert all[..|all| - 1] == es;
  }

  /** A datagram without an address leaves the mapped address as it was. */
  lemma AddressKept(host: Host, s: Session, datagram: Option<seq<byte>>)
    requires |s.data| == 20
    requires datagram.Some? ==>
               var reply := Reply(host, s.data[8..20], datagram.value);
               !reply.Updated? || reply.mapped == None
    ensures Processed(host, s, datagram).mapped == s.mapped
  {
  }

  /** An awaited datagram of at least 20 bytes ends the session with `processing_error`
      exactly when it begins with 01 11 or does not carry the transaction id at offset 8. */
  lemma ErrorSignalIff(
    host: Host, limit: int, id: (u32, u32, u32), rto: int, es: seq<Event>, d: seq<byte>)
    requires Run(host, limit, Started(Prepared(host, id), rto), es).listening && |d| >= 20
    ensures var s := Run(host, limit, Started(Prepared(host, id), rto), es + [ReadyRead(Some(d))]);
      && !s.timerActive && !s.listening
      && (s.signals == [ErrorSignal] <==>
            (d[0] == 0x01 && d[1] == 0x11) || d[8..20] != Put32(id.0) + Put32(id.1) + Put32(id.2))
      && (s.signals == [ErrorSignal] ==> s.mapped == None)
  {
    var transaction := Put32(id.0) + Put32(id.1) + Put32(id.2);
    FirstDatagramEnds(host, limit, id, rto, es, Some(d));
    ServerErrorIff(host, transaction, d);
    ForeignIff(host, transaction, d);
    assert [ErrorSignal][0] != [UpdatedSignal][0];
  }

  /** An answer that is awaited ends the session with `updated` and the address it carries,
      whatever came before it. */
  lemma AnswerEndsSession(
    host: Host, limit: int, id: (u32, u32, u32), rto: int, es: seq<Event>, answer: seq<byte>, e: EndPoint)
    requires Run(host, limit, Started(Prepared(host, id), rto), es).listening
    requires Reply(host, Put32(id.0) + Put32(id.1) + Put32(id.2), answer) == Updated(Some(e))
    ensures var s := Run(host, limit, Started(Prepared(host, id), rto), es + [ReadyRead(Some(answer))]);
      s.signals == [UpdatedSignal] && !s.timerActive && !s.listening && s.mapped == Some(e)
  {
    RunKeeps(host, limit, Prepared(host, id), rto, es);
    var all := es + [ReadyRead(Some(answer))];
    assert all[..|all| - 1] == es;
  }

  /** The client learns its own address, on either host, from an exclusive-ored answer, and
      address and port from a plain one, with any cookie and among other attributes of
      aligned lengths. */
  lemma ClientLearnsAddress(
    host: Host, limit: int, id: (u32, u32, u32), rto: int, es: seq<Event>, length: u16, cookie: u32,
    before: seq<Attribute>, after: seq<Attribute>, pads: seq<seq<byte>>, address: u32, port: u16, plain: bool)
    requires Run(host, limit, Started(Prepared(host, id), rto), es).listening
    requires Answers(before, if plain then Mapped4(address, port) else XorMapped(address, port), after, pads)
    ensures var a := if plain then Mapped4(address, port) else XorMapped(address, port);
            var answer := Response(length, cookie, Put32(id.0) + Put32(id.1) + Put32(id.2),
                                   before + [a] + after, pads);
            var s := Run(host, limit, Started(Prepared(host, id), rto), es + [ReadyRead(Some(answer))]);
      && s.signals == [UpdatedSignal] && !s.timerActive && !s.listening
      && s.mapped == Some(EndPoint(V4(address), if plain then port else XorU16(port, 0x2112)))
  {
    var a := if plain then Mapped4(address, port) else XorMapped(address, port);
    var e := EndPoint(V4(address), if plain then port else XorU16(port, 0x2112));
    var transaction := Put32(id.0) + Put32(id.1) + Put32(id.2);
    if plain {
      PlainResponseUnderstood(host, length, cookie, transaction, before, after, address, port, pads);
    } else {
      ResponseUnderstood(host, length, cookie, transaction, before, after, address, port, pads);
    }
    AnswerEndsSession(host, limit, id, rto, es,
                      Response(length, cookie, transaction, before + [a] + after, pads), e);
  }
}
