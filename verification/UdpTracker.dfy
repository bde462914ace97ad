/** The UDP tracker exchange (BEP 15): connect, announce, and the peers of the answer. */
module UdpTracker {
  import opened Bytes
  import opened Stun

  /* ---------- the stream ---------- */

  /** QDataStream reads past the end give 0, and so does every read after them. */
  function U16At(data: seq<byte>, offset: nat): u16 {
    if offset + 2 <= |data| then Be16(data[offset..offset + 2]) else 0
  }

  function U32At(data: seq<byte>, offset: nat): u32 {
    if offset + 4 <= |data| then Be32(data[offset..offset + 4]) else 0
  }

  function U64At(data: seq<byte>, offset: nat): u64 {
    if offset + 8 <= |data| then Be64(data[offset..offset + 8]) else 0
  }

  /** A short read consumes what is left. */
  function Past(data: seq<byte>, pos: nat, n: nat): nat {
    if pos + n <= |data| then pos + n else |data|
  }

  /* ---------- peers ---------- */

  /** The guard of the peer loop; n is the 8-bit index. */
  predicate More(n: nat, size: nat) {
    n * 6 < size - 20
  }

  /** The wrapping index leaves the loop at some turn exactly when the datagram has at most
      1550 bytes. */
  lemma LoopEndsIff(size: nat)
    ensures (exists turn: nat :: !More(turn % 256, size)) <==> size <= 1550
  {
    if size <= 1550 {
      assert !More(255 % 256, size);
    }
    forall turn: nat | size > 1550 ensures More(turn % 256, size) {
      assert turn % 256 <= 255;
    }
  }

  datatype Peers = Endless | Peers(list: seq<EndPoint>)

  /** One entry for every 6 bytes after the first 20, and one for an incomplete rest. */
  function PeerCount(size: nat): nat {
    if size <= 20 then 0 else (size - 20 + 5) / 6
  }

  function PeerAt(data: seq<byte>, i: nat): EndPoint {
    EndPoint(V4(U32At(data, 20 + 6 * i)), U16At(data, 24 + 6 * i))
  }

  function PeersOf(data: seq<byte>): (r: Peers)
    ensures r.Peers? ==> |r.list| <= 255
  {
    if |data| > 1550 then Endless
    else Peers(seq(PeerCount(|data|), i requires 0 <= i < PeerCount(|data|) => PeerAt(data, i)))
  }

  /** No end exactly when no value of the 8-bit index ends the loop. */
  lemma EndlessIff(data: seq<byte>)
    ensures PeersOf(data).Endless? <==> forall turn: nat :: More(turn % 256, |data|)
  {
    LoopEndsIff(|data|);
  }

  method ReadPeers(data: seq<byte>) returns (peers: Peers)
    ensures peers == PeersOf(data)
  {
    var endpoints := [];
    var pos := Past(data, 0, 20);
    var n := 0;
    while n * 6 < |data| - 20
      invariant 0 <= n <= 255
      invariant n <= PeerCount(|data|) && pos == Past(data, 0, 20 + 6 * n)
      invariant endpoints == seq(n, i requires 0 <= i < n => PeerAt(data, i))
      decreases 255 - n
    {
      var ip := U32At(data, pos);
      pos := Past(data, pos, 4);
      var port := U16At(data, pos);
      pos := Past(data, pos, 2);
      endpoints := endpoints + [EndPoint(V4(ip), port)];
      if n == 255 {
        // n++ makes it 0 again, and no 8-bit index ends this loop
        return Endless;
      }
      n := n + 1;
    }
    assert n == PeerCount(|data|);
    return Peers(endpoints);
  }

  datatype AnnounceAnswer = AnnounceAnswer(
    action: u32, transaction: u32, interval: u32, leechers: u32, seeders: u32)

  function EncodedPeers(peers: seq<(u32, u16)>): (b: seq<byte>)
    ensures |b| == 6 * |peers|
  {
    if peers == [] then []
    else EncodedPeers(peers[..|peers| - 1]) + Put32(peers[|peers| - 1].0) + Put16(peers[|peers| - 1].1)
  }

  /** An IPv4 announce response of the standard. */
  function EncodedAnswer(a: AnnounceAnswer, peers: seq<(u32, u16)>): (b: seq<byte>)
    ensures |b| == 20 + 6 * |peers|
  {
    Put32(a.action) + Put32(a.transaction) + Put32(a.interval) + Put32(a.leechers) + Put32(a.seeders)
    + EncodedPeers(peers)
  }

  lemma EntryParts(init: seq<byte>, ip: seq<byte>, port: seq<byte>)
    requires |ip| == 4 && |port| == 2
    ensures var b, n := init + ip + port, |init|;
      b[..n] == init && b[n..n + 4] == ip && b[n + 4..n + 6] == port
  {
  }

  lemma SliceOfPrefix(b: seq<byte>, n: nat, i: nat, j: nat)
    requires i <= j <= n <= |b|
    ensures b[i..j] == b[..n][i..j]
  {
  }

  lemma {:induction false} EncodedPeerAt(peers: seq<(u32, u16)>, i: nat)
    requires i < |peers|
    ensures var b := EncodedPeers(peers);
      b[6 * i..6 * i + 4] == Put32(peers[i].0) && b[6 * i + 4..6 * i + 6] == Put16(peers[i].1)
  {
    var b, last := EncodedPeers(peers), |peers| - 1;
    EntryParts(EncodedPeers(peers[..last]), Put32(peers[last].0), Put16(peers[last].1));
    if i < last {
      EncodedPeerAt(peers[..last], i);
      SliceOfPrefix(b, 6 * last, 6 * i, 6 * i + 4);
      SliceOfPrefix(b, 6 * last, 6 * i + 4, 6 * i + 6);
    }
  }

  function EndPoints(peers: seq<(u32, u16)>): seq<EndPoint> {
    seq(|peers|, i requires 0 <= i < |peers| => EndPoint(V4(peers[i].0), peers[i].1))
  }

  /** A list of peers survives encoding and reading, in order, exactly when it has at most
      255 entries; the rest of the answer does not matter. */
  lemma PeersSurviveIff(a: AnnounceAnswer, peers: seq<(u32, u16)>)
    ensures PeersOf(EncodedAnswer(a, peers)) == Peers(EndPoints(peers)) <==> |peers| <= 255
    ensures PeersOf(EncodedAnswer(a, peers)).Endless? <==> |peers| >= 256
  {
    var data := EncodedAnswer(a, peers);
    if |peers| <= 255 {
      assert PeerCount(|data|) == |peers|;
      forall i | 0 <= i < |peers| ensures PeerAt(data, i) == EndPoint(V4(peers[i].0), peers[i].1) {
        EncodedPeerAt(peers, i);
        var b := EncodedPeers(peers);
        assert data[20..] == b;
        assert data[20 + 6 * i..24 + 6 * i] == b[6 * i..6 * i + 4];
        assert data[24 + 6 * i..26 + 6 * i] == b[6 * i + 4..6 * i + 6];
      }
      assert PeersOf(data).list == EndPoints(peers);
    }
  }

  /** On any datagram of at most 1550 bytes: ceil((size - 20) / 6) endpoints, complete ones
      read in place, and at most one made of an incomplete rest. */
  lemma PeerCountIsCeiling(data: seq<byte>)
    requires |data| <= 1550
    ensures var list := PeersOf(data).list;
      && (|data| <= 20 ==> list == [])
      && (|data| > 20 ==> 6 * (|list| - 1) < |data| - 20 <= 6 * |list|)
      && (forall i :: 0 <= i < |list| && 26 + 6 * i <= |data| ==>
            list[i] == EndPoint(V4(Be32(data[20 + 6 * i..24 + 6 * i])), Be16(data[24 + 6 * i..26 + 6 * i])))
      && (forall i :: 0 <= i < |list| && 26 + 6 * i > |data| ==> i == |list| - 1 && list[i].port == 0)
  {
  }

  /* ---------- requests ---------- */

  const PROTOCOL_ID: u64 := 0x41727101980

  function ConnectRequest(transaction: u32): (b: seq<byte>)
    ensures |b| == 16
  {
    Put64(PROTOCOL_ID) + Put32(0) + Put32(transaction)
  }

  datatype AnnounceRequest = AnnounceRequest(
    connection: u64, action: u32, transaction: u32, infoHash: seq<byte>, peerId: seq<byte>,
    downloaded: u64, left: u64, uploaded: u64, event: u32, ipv4: u32, key: u32, numWant: u32, port: u16)

  predicate Sized(r: AnnounceRequest) {
    |r.infoHash| == 20 && |r.peerId| == 20
  }

  function IdFields(r: AnnounceRequest): (b: seq<byte>)
    requires Sized(r)
    ensures |b| == 56
  {
    Put64(r.connection) + Put32(r.action) + Put32(r.transaction) + r.infoHash + r.peerId
  }

  function TotalFields(r: AnnounceRequest): (b: seq<byte>)
    ensures |b| == 24
  {
    Put64(r.downloaded) + Put64(r.left) + Put64(r.uploaded)
  }

  function OtherFields(r: AnnounceRequest): (b: seq<byte>)
    ensures |b| == 18
  {
    Put32(r.event) + Put32(r.ipv4) + Put32(r.key) + Put32(r.numWant) + Put16(r.port)
  }

  function EncodedRequest(r: AnnounceRequest): (b: seq<byte>)
    requires Sized(r)
    ensures |b| == 98
  {
    IdFields(r) + TotalFields(r) + OtherFields(r)
  }

  /** The announce request read at the offsets the standard lists. */
  function StandardRequest(b: seq<byte>): AnnounceRequest
    requires |b| == 98
  {
    AnnounceRequest(
      Be64(b[0..8]), Be32(b[8..12]), Be32(b[12..16]), b[16..36], b[36..56],
      Be64(b[56..64]), Be64(b[64..72]), Be64(b[72..80]),
      Be32(b[80..84]), Be32(b[84..88]), Be32(b[88..92]), Be32(b[92..96]), Be16(b[96..98]))
  }

  lemma IdParts(r: AnnounceRequest)
    requires Sized(r)
    ensures var b := IdFields(r);
      && b[0..8] == Put64(r.connection) && b[8..12] == Put32(r.action) && b[12..16] == Put32(r.transaction)
      && b[16..36] == r.infoHash && b[36..56] == r.peerId
  {
    var c, a, t := Put64(r.connection), Put32(r.action), Put32(r.transaction);
    assert IdFields(r) == c + (a + t + r.infoHash + r.peerId);
    assert (c + a + t + r.infoHash + r.peerId)[8..12] == a;
    assert (c + a + t + r.infoHash + r.peerId)[12..16] == t;
  }

  lemma OtherParts(r: AnnounceRequest)
    ensures var b := OtherFields(r);
      && b[0..4] == Put32(r.event) && b[4..8] == Put32(r.ipv4) && b[8..12] == Put32(r.key)
      && b[12..16] == Put32(r.numWant) && b[16..18] == Put16(r.port)
  {
  }

  lemma ThreeParts(a: seq<byte>, b: seq<byte>, c: seq<byte>)
    ensures var s := a + b + c;
      s[..|a|] == a && s[|a|..|a| + |b|] == b && s[|a| + |b|..] == c
  {
  }

  lemma IdLayout(b: seq<byte>)
    requires |b| == 98
    ensures var p := b[..56];
      b[0..8] == p[0..8] && b[8..12] == p[8..12] && b[12..16] == p[12..16] && b[16..36] == p[16..36] && b[36..56] == p[36..56]
  {
  }

  lemma TotalLayout(b: seq<byte>)
    requires |b| == 98
    ensures var p := b[56..80];
      b[56..64] == p[0..8] && b[64..72] == p[8..16] && b[72..80] == p[16..24]
  {
  }

  lemma OtherLayout(b: seq<byte>)
    requires |b| == 98
    ensures var p := b[80..];
      b[80..84] == p[0..4] && b[84..88] == p[4..8] && b[88..92] == p[8..12] && b[92..96] == p[12..16] && b[96..98] == p[16..18]
  {
  }

  /** The announce packet has the standard's layout: reading it at the standard's offsets
      gives back every field. */
  lemma AnnounceLayout(r: AnnounceRequest)
    requires Sized(r)
    ensures StandardRequest(EncodedRequest(r)) == r
  {
    var b := EncodedRequest(r);
    ThreeParts(IdFields(r), TotalFields(r), OtherFields(r));
    IdLayout(b);
    TotalLayout(b);
    OtherLayout(b);
    IdParts(r);
    ThreeParts(Put64(r.downloaded), Put64(r.left), Put64(r.uploaded));
    OtherParts(r);
  }

  lemma ConnectLayout(transaction: u32)
    ensures var b := ConnectRequest(transaction);
      Be64(b[..8]) == 0x41727101980 && Be32(b[8..12]) == 0 && Be32(b[12..]) == transaction
  {
    var b := ConnectRequest(transaction);
    assert b[..8] == Put64(PROTOCOL_ID) && b[8..12] == Put32(0) && b[12..] == Put32(transaction);
  }

  /* ---------- the exchange ---------- */

  predicate AcceptsConnection(transaction: u32, data: seq<byte>) {
    U32At(data, 4) == transaction && |data| >= 16 && U32At(data, 0) == 0
  }

  /** A connect response is accepted exactly when it has at least 16 bytes, begins with
      action 0, and answers this request; then bytes 8 to 16 are the id kept. */
  lemma ConnectionAcceptedIff(transaction: u32, data: seq<byte>)
    ensures AcceptsConnection(transaction, data)
       <==> |data| >= 16 && data[..4] == [0, 0, 0, 0] && data[4..8] == Put32(transaction)
    ensures |data| >= 16 ==> Put64(U64At(data, 8)) == data[8..16]
  {
    if |data| >= 16 {
      PutBe32(data[0..4]);
      PutBe32(data[4..8]);
      PutBe64(data[8..16]);
      assert Put32(0) == [0, 0, 0, 0] by { PutBe32([0, 0, 0, 0]); }
    }
  }

  lemma PutBe64(b: seq<byte>)
    requires |b| == 8
    ensures Put64(Be64(b)) == b
  {
    PutBe32(b[..4]);
    PutBe32(b[4..]);
    assert Be64(b) / 0x1_0000_0000 == Be32(b[..4]) && Be64(b) % 0x1_0000_0000 == Be32(b[4..]);
    assert b == b[..4] + b[4..];
  }

  function Others(endpoints: seq<EndPoint>, self: EndPoint): seq<EndPoint> {
    if endpoints == [] then []
    else Others(endpoints[..|endpoints| - 1], self)
         + (if endpoints[|endpoints| - 1] != self then [endpoints[|endpoints| - 1]] else [])
  }

  /** The recipients keep the order of the endpoints: those of the first part, then those of
      the second, each endpoint itself unless it is our own. */
  lemma {:induction false} OthersInOrder(a: seq<EndPoint>, b: seq<EndPoint>, self: EndPoint)
    ensures Others(a + b, self) == Others(a, self) + Others(b, self)
    ensures forall e :: Others([e], self) == if e == self then [] else [e]
  {
    forall e ensures Others([e], self) == if e == self then [] else [e] {
      assert [e][..0] == [];
    }
    if b == [] {
      assert a + b == a;
    } else {
      assert (a + b)[..|a + b| - 1] == a + b[..|b| - 1];
      OthersInOrder(a, b[..|b| - 1], self);
    }
  }

  /** Everybody else is a recipient as often as listed, and we never are. */
  lemma {:induction false} OthersCount(endpoints: seq<EndPoint>, self: EndPoint)
    ensures multiset(Others(endpoints, self)) == multiset(endpoints)[self := 0]
  {
    if endpoints != [] {
      var init, last := endpoints[..|endpoints| - 1], endpoints[|endpoints| - 1];
      OthersCount(init, self);
      assert endpoints == init + [last];
    }
  }

  lemma EncodedStart(r: AnnounceRequest)
    requires Sized(r)
    ensures EncodedRequest(r)[..8] == Put64(r.connection)
  {
    IdParts(r);
    assert EncodedRequest(r)[..8] == IdFields(r)[0..8];
  }

  /** The loops that write info_hash and peer_id byte by byte. */
  method WriteTwenty(packet: seq<byte>, bytes: seq<byte>) returns (written: seq<byte>)
    requires |bytes| == 20
    ensures written == packet + bytes
  {
    written := packet;
    var i := 0;
    while i < 20
      invariant 0 <= i <= 20 && written == packet + bytes[..i]
    {
      written := written + [bytes[i]];
      i := i + 1;
    }
  }

  class TrackerManager {
    var connectTransaction: u32
    var connection: u64
    var announce: AnnounceRequest
    var endpoints: seq<EndPoint>
    ghost var answer: seq<byte>    // the last connect response received

    ghost predicate Valid() reads this {
      Sized(announce) && |endpoints| <= 255 && connection == U64At(answer, 8)
    }

    constructor (connectTransaction: u32, announce: AnnounceRequest)
      requires Sized(announce)
      ensures Valid() && endpoints == [] && this.announce == announce && answer == []
      ensures this.connectTransaction == connectTransaction && connection == 0
    {
      this.connectTransaction, this.announce := connectTransaction, announce;
      connection, endpoints, answer := 0, [], [];
    }

    /** The result tells conn_succeed from conn_resp_error; the id is kept either way. */
    method ReceiveConnResponse(data: seq<byte>) returns (succeeded: bool)
      requires Valid()
      modifies this`connection, this`answer
      ensures Valid() && answer == data
      ensures succeeded <==> AcceptsConnection(connectTransaction, data)
    {
      var pos := 0;
      var action := U32At(data, pos);
      pos := Past(data, pos, 4);
      var transaction := U32At(data, pos);
      pos := Past(data, pos, 4);
      connection := U64At(data, pos);
      answer := data;
      succeeded := connectTransaction == transaction && |data| >= 16 && action == 0;
    }

    /** An announce after a complete connect response begins with the 8 bytes of its
        connection id. */
    method SendAnnounce() returns (packet: seq<byte>)
      requires Valid()
      modifies this`announce
      ensures Valid() && announce == old(announce).(connection := connection)
      ensures packet == EncodedRequest(announce)
      ensures |answer| >= 16 ==> packet[..8] == answer[8..16]
    {
      announce := announce.(connection := connection);
      var r := announce;
      packet := Put64(r.connection) + Put32(r.action) + Put32(r.transaction);
      packet := WriteTwenty(packet, r.infoHash);
      packet := WriteTwenty(packet, r.peerId);
      packet := packet + (Put64(r.downloaded) + Put64(r.left) + Put64(r.uploaded))
              + (Put32(r.event) + Put32(r.ipv4) + Put32(r.key) + Put32(r.numWant) + Put16(r.port));
      EncodedStart(r);
      if |answer| >= 16 { PutBe64(answer[8..16]); }
    }

    /** A datagram the loop never finishes is answered by Endless, with no new state. */
    method ReceiveAnnounce(data: seq<byte>) returns (peers: Peers)
      requires Valid()
      modifies this`endpoints
      ensures Valid() && peers == PeersOf(data)
      ensures endpoints == if peers.Peers? then peers.list else old(endpoints)
    {
      peers := ReadPeers(data);
      if peers.Peers? {
        endpoints := peers.list;
      }
    }

    /** The recipients of the greeting: every endpoint but our own, in order. The 8-bit index
        reaches the end because ReceiveAnnounce never leaves more than 255 endpoints. */
    method SendMessage(self: EndPoint) returns (recipients: seq<EndPoint>)
      requires Valid()
      ensures recipients == Others(endpoints, self)
    {
      recipients := [];
      var i := 0;
      while i < |endpoints|
        invariant 0 <= i <= |endpoints| && i <= 255
        invariant recipients == Others(endpoints[..i], self)
      {
        assert endpoints[..i + 1][..i] == endpoints[..i];
        if endpoints[i].address != self.address || endpoints[i].port != self.port {
          recipients := recipients + [endpoints[i]];
        }
        i := i + 1;
      }
      assert endpoints[..|endpoints|] == endpoints;
    }
  }
}
