/** The packet codec of src/tju_packet.c and the checksum of src/tju_tcp.c: big-endian fields, a 16-bit
    sum of the fields and of the payload's bytes, which are signed. */
module PacketCodec {
  import opened Common

  type Word = x: int | 0 <= x < 0x1_0000
  type Long = x: int | 0 <= x < 0x1_0000_0000

  datatype Header = Header(src: Word, dst: Word, seqNum: Long, ackNum: Long, hlen: Word, plen: Word,
                           flags: Byte, window: Word, ext: Byte, checksum: Word)

  datatype Packet = Packet(header: Header, data: seq<Byte>)

  function DataLen(h: Header): nat { if h.plen > h.hlen then h.plen - h.hlen else 0 }

  /** What the codec can carry: the payload fits the lengths, and does not start inside the header. */
  predicate WellFormed(p: Packet) {
    HEADER_LEN <= p.header.hlen && HEADER_LEN <= p.header.plen && |p.data| == DataLen(p.header)
  }

  // ---------- Bytes ----------

  function Bytes16(x: Word): (b: seq<Byte>) { [x / 0x100, x % 0x100] }

  function Bytes32(x: Long): (b: seq<Byte>) { Bytes16(x / 0x1_0000) + Bytes16(x % 0x1_0000) }

  function Get16(buf: seq<Byte>, at: nat): Word
    requires at + 2 <= |buf|
  {
    var high: int := buf[at];
    high * 0x100 + buf[at + 1]
  }

  function Get32(buf: seq<Byte>, at: nat): Long
    requires at + 4 <= |buf|
  {
    var high: int := Get16(buf, at);
    high * 0x1_0000 + Get16(buf, at + 2)
  }

  function Zeros(n: nat): seq<Byte> { seq(n, _ => 0) }

  function HeaderBytes(h: Header): (b: seq<Byte>)
    ensures |b| == HEADER_LEN
  {
    Bytes16(h.src) + Bytes16(h.dst) + Bytes32(h.seqNum) + Bytes32(h.ackNum) + Bytes16(h.hlen) + Bytes16(h.plen)
    + [h.flags] + Bytes16(h.window) + [h.ext] + Bytes16(h.checksum)
  }

  /** `packet_to_buf`: `plen` bytes, the payload from `hlen` on. */
  function Serialised(p: Packet): (buf: seq<Byte>)
    requires WellFormed(p)
    ensures |buf| == p.header.plen
  {
    var h := p.header;
    HeaderBytes(h) + if h.plen > h.hlen then Zeros(h.hlen - HEADER_LEN) + p.data else Zeros(h.plen - HEADER_LEN)
  }

  /** A big-endian number. */
  function Number(b: seq<Byte>): nat {
    if b == [] then 0 else 0x100 * Number(b[..|b| - 1]) + b[|b| - 1]
  }

  lemma TwoBytes(b: seq<Byte>)
    requires |b| == 2
    ensures var high: int := b[0]; Number(b) == high * 0x100 + b[1]
  {
    assert b[..1][..0] == [];
    assert Number(b[..1]) == 0x100 * Number(b[..1][..0]) + b[0];
  }

  lemma FourBytes(b: seq<Byte>)
    requires |b| == 4
    ensures Number(b) == 0x1_0000 * Number(b[..2]) + Number(b[2..])
  {
    assert b[..3][..2] == b[..2];
    assert Number(b[..3]) == 0x100 * Number(b[..2]) + b[2];
    TwoBytes(b[2..]);
  }

  lemma Bytes16Number(x: Word)
    ensures Number(Bytes16(x)) == x
  {
    TwoBytes(Bytes16(x));
  }

  lemma Bytes32Number(x: Long)
    ensures Number(Bytes32(x)) == x
  {
    FourBytes(Bytes32(x));
    Bytes16Number(x / 0x1_0000);
    Bytes16Number(x % 0x1_0000);
    assert Bytes32(x)[..2] == Bytes16(x / 0x1_0000) && Bytes32(x)[2..] == Bytes16(x % 0x1_0000);
  }

  lemma FrontFields(h: Header)
    ensures var b := HeaderBytes(h);
      && b[0..2] == Bytes16(h.src) && b[2..4] == Bytes16(h.dst)
      && b[4..8] == Bytes32(h.seqNum) && b[8..12] == Bytes32(h.ackNum)
  {
  }

  lemma BackFields(h: Header)
    ensures var b := HeaderBytes(h);
      && b[12..14] == Bytes16(h.hlen) && b[14..16] == Bytes16(h.plen) && b[16] == h.flags
      && b[17..19] == Bytes16(h.window) && b[19] == h.ext && b[20..22] == Bytes16(h.checksum)
  {
  }

  /** Where each field of `tju_header_t` lies in a serialised packet: one after the other in the order of
      the structure, two, four or one byte each, big-endian, then whatever lies before the payload, and
      the payload at `hlen`. */
  lemma WireLayout(p: Packet)
    requires WellFormed(p)
    ensures var b, h := Serialised(p), p.header;
      && Number(b[0..2]) == h.src && Number(b[2..4]) == h.dst
      && Number(b[4..8]) == h.seqNum && Number(b[8..12]) == h.ackNum
      && Number(b[12..14]) == h.hlen && Number(b[14..16]) == h.plen && b[16] == h.flags
      && Number(b[17..19]) == h.window && b[19] == h.ext && Number(b[20..22]) == h.checksum
      && |b| == h.plen && (h.plen > h.hlen ==> b[h.hlen..] == p.data)
  {
    var b, h := Serialised(p), p.header;
    assert b[..22] == HeaderBytes(h);
    forall i, j | 0 <= i <= j <= 22 ensures b[i..j] == HeaderBytes(h)[i..j] {
      assert b[i..j] == b[..22][i..j];
    }
    FrontFields(h);
    BackFields(h);
    Bytes16Number(h.src);
    Bytes16Number(h.dst);
    Bytes32Number(h.seqNum);
    Bytes32Number(h.ackNum);
    Bytes16Number(h.hlen);
    Bytes16Number(h.plen);
    Bytes16Number(h.window);
    Bytes16Number(h.checksum);
  }

  function ParsedHeader(buf: seq<Byte>): Header
    requires |buf| >= HEADER_LEN
  {
    Header(Get16(buf, 0), Get16(buf, 2), Get32(buf, 4), Get32(buf, 8), Get16(buf, 12), Get16(buf, 14),
           buf[16], Get16(buf, 17), buf[19], Get16(buf, 20))
  }

  /** A whole packet has arrived. */
  predicate Arrived(buf: seq<Byte>) {
    |buf| >= HEADER_LEN && |buf| == ParsedHeader(buf).plen
  }

  /** `buf_to_packet` */
  function Parsed(buf: seq<Byte>): Packet
    requires Arrived(buf)
  {
    var h := ParsedHeader(buf);
    Packet(h, if h.plen > h.hlen then buf[h.hlen..h.plen] else [])
  }

  lemma WordBack(x: Word)
    ensures Get16(Bytes16(x), 0) == x
  {
  }

  lemma LongBack(x: Long)
    ensures Get32(Bytes32(x), 0) == x
  {
    WordBack(x / 0x1_0000);
    WordBack(x % 0x1_0000);
  }

  lemma HeaderBack(h: Header, rest: seq<Byte>)
    ensures ParsedHeader(HeaderBytes(h) + rest) == h
  {
    var buf := HeaderBytes(h) + rest;
    assert buf[..HEADER_LEN] == HeaderBytes(h);
    WordBack(h.src);
    WordBack(h.dst);
    LongBack(h.seqNum);
    LongBack(h.ackNum);
    WordBack(h.hlen);
    WordBack(h.plen);
    WordBack(h.window);
    WordBack(h.checksum);
  }

  /** Parsing a serialised packet gives the packet back. */
  lemma RoundTrip(p: Packet)
    requires WellFormed(p)
    ensures Arrived(Serialised(p)) && Parsed(Serialised(p)) == p
  {
    var buf := Serialised(p);
    HeaderBack(p.header, buf[HEADER_LEN..]);
    assert buf == HeaderBytes(p.header) + buf[HEADER_LEN..];
    if p.header.plen > p.header.hlen {
      assert buf[p.header.hlen..p.header.plen] == p.data;
    }
  }

  // ---------- Checksum ----------

  /** `char` is signed. */
  function Signed(b: Byte): int { if b < 0x80 then b else b - 0x100 }

  function Swapped(x: Word): Word { x % 0x100 * 0x100 + x / 0x100 }

  function HeaderSum(h: Header): int {
    h.src + h.dst + h.seqNum + h.ackNum + Swapped(h.hlen) + Swapped(h.plen) + h.flags + h.window + h.ext
  }

  function DataSum(data: seq<Byte>): int {
    if data == [] then 0 else DataSum(data[..|data| - 1]) + Signed(data[|data| - 1])
  }

  /** What an `unsigned short` keeps of a sum, by going round. */
  function Wrapped(sum: int): Word
    decreases if sum < 0 then 0x2_0000 - sum else sum
  {
    if sum < 0 then Wrapped(sum + 0x1_0000) else if sum < 0x1_0000 then sum else Wrapped(sum - 0x1_0000)
  }

  lemma {:induction false} WrappedIsRemainder(sum: int)
    ensures Wrapped(sum) == sum % 0x1_0000
    decreases if sum < 0 then 0x2_0000 - sum else sum
  {
    if sum < 0 {
      WrappedIsRemainder(sum + 0x1_0000);
    } else if sum >= 0x1_0000 {
      WrappedIsRemainder(sum - 0x1_0000);
    }
  }

  function Checksum(p: Packet): Word { 0xFFFF - Wrapped(HeaderSum(p.header) + DataSum(p.data)) }

  /** `tcp_check` */
  predicate Checks(p: Packet) { p.header.checksum == Checksum(p) }

  function WithChecksum(p: Packet): Packet { p.(header := p.header.(checksum := Checksum(p))) }

  /** A packet that was made by `create_packet`, sent and parsed is accepted, with every field and the
      payload as they were. */
  lemma SentIsAccepted(p: Packet)
    requires WellFormed(p)
    ensures var q := WithChecksum(p);
      Arrived(Serialised(q)) && Parsed(Serialised(q)) == q && Checks(Parsed(Serialised(q)))
  {
    RoundTrip(WithChecksum(p));
  }

  /** The sum that must come out as 0xFFFF. */
  function Total(p: Packet): int { HeaderSum(p.header) + DataSum(p.data) + p.header.checksum }

  lemma ChecksIsTotal(p: Packet)
    ensures Checks(p) <==> Total(p) % 0x1_0000 == 0xFFFF
  {
    var sum := HeaderSum(p.header) + DataSum(p.data);
    WrappedIsRemainder(sum);
    assert sum == sum / 0x1_0000 * 0x1_0000 + sum % 0x1_0000;
  }

  function PlainSum(data: seq<Byte>): nat {
    if data == [] then 0 else PlainSum(data[..|data| - 1]) + data[|data| - 1]
  }

  /** How many bytes have their upper bit set. */
  function HighBytes(data: seq<Byte>): nat {
    if data == [] then 0 else HighBytes(data[..|data| - 1]) + data[|data| - 1] / 0x80
  }

  lemma {:induction false} DataSumIs(data: seq<Byte>)
    ensures DataSum(data) == PlainSum(data) - 0x100 * HighBytes(data)
  {
    if data != [] { DataSumIs(data[..|data| - 1]); }
  }

  /** `tcp_check` in one equation: the fields, the checksum among them and the two lengths with their bytes
      exchanged, and the payload's bytes, each less 256 if its upper bit is set, add up to 0xFFFF in 16
      bits. */
  lemma ChecksExactly(p: Packet)
    ensures var h := p.header;
      Checks(p) <==>
        (h.src + h.dst + h.seqNum + h.ackNum + h.flags + h.window + h.ext + h.checksum
         + (h.hlen % 256 * 256 + h.hlen / 256) + (h.plen % 256 * 256 + h.plen / 256)
         + PlainSum(p.data) - 256 * HighBytes(p.data)) % 65536 == 65535
  {
    ChecksIsTotal(p);
    DataSumIs(p.data);
  }

  lemma {:induction false} DataSumUpdate(data: seq<Byte>, i: nat, b: Byte)
    requires i < |data|
    ensures DataSum(data[i := b]) == DataSum(data) - Signed(data[i]) + Signed(b)
  {
    var n := |data| - 1;
    if i == n {
      assert data[i := b][..n] == data[..n];
    } else {
      assert data[i := b][..n] == data[..n][i := b];
      DataSumUpdate(data[..n], i, b);
    }
  }

  lemma SameRemainder(t: int, u: int, x: int, y: int)
    requires u - t == x - y
    ensures t % 0x1_0000 == u % 0x1_0000 <==> x % 0x1_0000 == y % 0x1_0000
  {
    var m := 0x1_0000;
    assert t == t / m * m + t % m && u == u / m * m + u % m;
    assert x == x / m * m + x % m && y == y / m * m + y % m;
  }

  /** A packet that differs from an accepted one by `x - y` in the sum is accepted if and only if `x`
      and `y` agree in 16 bits. */
  lemma AcceptedToo(p: Packet, q: Packet, x: int, y: int)
    requires Checks(p) && Total(q) - Total(p) == x - y
    ensures Checks(q) <==> x % 0x1_0000 == y % 0x1_0000
  {
    ChecksIsTotal(p);
    ChecksIsTotal(q);
    SameRemainder(Total(p), Total(q), x, y);
  }

  lemma WrapAccepted(p: Packet, q: Packet, x: int, y: int)
    requires Checks(p) && Total(q) - Total(p) == x - y
    ensures Checks(q) <==> Wrapped(x) == Wrapped(y)
  {
    AcceptedToo(p, q, x, y);
    WrappedIsRemainder(x);
    WrappedIsRemainder(y);
  }

  /** What the byte `b` at `k` counts in the sum when the payload starts at `hlen`; the bytes of the
      lengths are left aside, and what lies between header and payload is not summed. */
  function Share(hlen: nat, k: nat, b: Byte): int {
    if HEADER_LEN <= k < hlen then 0
    else if k == 4 || k == 8 then 0x100_0000 * b
    else if k == 5 || k == 9 then 0x1_0000 * b
    else if k in {0, 2, 6, 10, 17, 20} then 0x100 * b
    else if k < HEADER_LEN then b
    else Signed(b)
  }

  lemma ShareAgrees(hlen: nat, k: nat, a: Byte, b: Byte)
    ensures Share(hlen, k, a) % 0x1_0000 == Share(hlen, k, b) % 0x1_0000 <==>
      a == b || k in {4, 5, 8, 9} || HEADER_LEN <= k < hlen
  {
  }

  lemma HeaderByteMoves(buf: seq<Byte>, k: nat, b: Byte)
    requires |buf| >= HEADER_LEN && k < HEADER_LEN && !(12 <= k < 16)
    ensures var h, g := ParsedHeader(buf), ParsedHeader(buf[k := b]);
      && g.hlen == h.hlen && g.plen == h.plen
      && HeaderSum(g) + g.checksum - HeaderSum(h) - h.checksum == Share(h.hlen, k, b) - Share(h.hlen, k, buf[k])
  {
  }

  lemma PayloadByteMoves(buf: seq<Byte>, k: nat, b: Byte)
    requires Arrived(buf) && HEADER_LEN <= ParsedHeader(buf).hlen <= k < |buf|
    ensures ParsedHeader(buf[k := b]) == ParsedHeader(buf)
    ensures DataSum(Parsed(buf[k := b]).data) - DataSum(Parsed(buf).data) == Signed(b) - Signed(buf[k])
  {
    var at := ParsedHeader(buf).hlen;
    assert Parsed(buf[k := b]).data == Parsed(buf).data[k - at := b];
    DataSumUpdate(Parsed(buf).data, k - at, b);
  }

  lemma TotalMovesFront(buf: seq<Byte>, k: nat, b: Byte)
    requires Arrived(buf) && k < |buf| && !(12 <= k < 16)
    requires HEADER_LEN <= ParsedHeader(buf).hlen && k < ParsedHeader(buf).hlen
    ensures Arrived(buf[k := b])
    ensures var hlen := ParsedHeader(buf).hlen;
      Total(Parsed(buf[k := b])) - Total(Parsed(buf)) == Share(hlen, k, b) - Share(hlen, k, buf[k])
  {
    if k < HEADER_LEN {
      HeaderByteMoves(buf, k, b);
    } else {
      assert ParsedHeader(buf[k := b]) == ParsedHeader(buf);
    }
    SamePayload(buf, k, b);
  }

  lemma TotalMoves(buf: seq<Byte>, k: nat, b: Byte)
    requires Arrived(buf) && ParsedHeader(buf).hlen >= HEADER_LEN && k < |buf| && !(12 <= k < 16)
    ensures Arrived(buf[k := b])
    ensures var hlen := ParsedHeader(buf).hlen;
      Total(Parsed(buf[k := b])) - Total(Parsed(buf)) == Share(hlen, k, b) - Share(hlen, k, buf[k])
  {
    if k < ParsedHeader(buf).hlen {
      TotalMovesFront(buf, k, b);
    } else {
      PayloadByteMoves(buf, k, b);
    }
  }

  lemma SamePayload(buf: seq<Byte>, k: nat, b: Byte)
    requires Arrived(buf) && HEADER_LEN <= ParsedHeader(buf).hlen && k < |buf| && k < ParsedHeader(buf).hlen
    requires Arrived(buf[k := b])
    requires ParsedHeader(buf[k := b]).hlen == ParsedHeader(buf).hlen
    ensures Parsed(buf[k := b]).data == Parsed(buf).data
  {
  }

  /** Altering one byte of an accepted packet, outside the two lengths, goes unnoticed if and only if
      the byte is in the upper half of `seq_num` or `ack_num`, since the sum has 16 bits, or between
      header and payload, where it is not summed. */
  lemma OneByteExactly(buf: seq<Byte>, k: nat, b: Byte)
    requires Arrived(buf) && Checks(Parsed(buf)) && ParsedHeader(buf).hlen >= HEADER_LEN
    requires k < |buf| && b != buf[k] && !(12 <= k < 16)
    ensures Arrived(buf[k := b])
    ensures Checks(Parsed(buf[k := b])) <==> k in {4, 5, 8, 9} || HEADER_LEN <= k < ParsedHeader(buf).hlen
  {
    var hlen := ParsedHeader(buf).hlen;
    TotalMoves(buf, k, b);
    AcceptedToo(Parsed(buf), Parsed(buf[k := b]), Share(hlen, k, b), Share(hlen, k, buf[k]));
    ShareAgrees(hlen, k, b, buf[k]);
  }

  /** The sum of what follows position `hlen`. */
  function TailSum(buf: seq<Byte>, hlen: nat): int { if hlen < |buf| then DataSum(buf[hlen..]) else 0 }

  /** What a buffer counts for because of its `hlen`: the field itself and the bytes it makes payload. */
  function HlenShare(buf: seq<Byte>, hlen: Word): int { Swapped(hlen) + TailSum(buf, hlen) }

  /** Altering `hlen` moves the start of the payload. It goes unnoticed if and only if the field and
      the payload it now starts count for the same as before, in 16 bits. */
  lemma HlenExactly(buf: seq<Byte>, high: Byte, low: Byte)
    requires Arrived(buf) && Checks(Parsed(buf))
    ensures var z := buf[12 := high][13 := low];
      Arrived(z) && (Checks(Parsed(z)) <==>
        Wrapped(HlenShare(z, high * 0x100 + low)) == Wrapped(HlenShare(buf, Get16(buf, 12))))
  {
    var z := buf[12 := high][13 := low];
    assert Arrived(z);
    var p, q, x, y := Parsed(buf), Parsed(z), HlenShare(z, high * 0x100 + low), HlenShare(buf, Get16(buf, 12));
    assert Total(q) - Total(p) == x - y by { HlenMoves(buf, high, low); }
    WrapAccepted(p, q, x, y);
  }

  lemma HlenMoves(buf: seq<Byte>, high: Byte, low: Byte)
    requires Arrived(buf)
    ensures var z := buf[12 := high][13 := low];
      Arrived(z) && Total(Parsed(z)) - Total(Parsed(buf))
                 == HlenShare(z, high * 0x100 + low) - HlenShare(buf, Get16(buf, 12))
  {
    var z := buf[12 := high][13 := low];
    assert ParsedHeader(z) == ParsedHeader(buf).(hlen := high * 0x100 + low);
    TailIsPayload(buf);
    TailIsPayload(z);
  }

  lemma TailIsPayload(buf: seq<Byte>)
    requires Arrived(buf)
    ensures DataSum(Parsed(buf).data) == TailSum(buf, ParsedHeader(buf).hlen)
  {
    var h := ParsedHeader(buf);
    if h.plen > h.hlen {
      assert buf[h.hlen..h.plen] == buf[h.hlen..];
    }
  }

  /** What a buffer counts for because of its length: `plen` itself and the payload. */
  function PlenShare(buf: seq<Byte>): int
    requires Arrived(buf)
  {
    Swapped(|buf|) + TailSum(buf, ParsedHeader(buf).hlen)
  }

  /** Altering `plen` makes the receiver take another number of bytes off the network, `z`, whatever
      follows the header then. It goes unnoticed if and only if length and payload count for the same
      as before, in 16 bits. */
  lemma PlenExactly(buf: seq<Byte>, high: Byte, low: Byte, z: seq<Byte>)
    requires Arrived(buf) && Checks(Parsed(buf)) && Arrived(z)
    requires z[..HEADER_LEN] == buf[..HEADER_LEN][14 := high][15 := low]
    ensures Checks(Parsed(z)) <==> Wrapped(PlenShare(z)) == Wrapped(PlenShare(buf))
  {
    SameHeader(buf, high, low, z);
    TailIsPayload(buf);
    TailIsPayload(z);
    WrapAccepted(Parsed(buf), Parsed(z), PlenShare(z), PlenShare(buf));
  }

  lemma SameHeader(buf: seq<Byte>, high: Byte, low: Byte, z: seq<Byte>)
    requires Arrived(buf) && Arrived(z)
    requires z[..HEADER_LEN] == buf[..HEADER_LEN][14 := high][15 := low]
    ensures ParsedHeader(z) == ParsedHeader(buf).(plen := |z|)
  {
    forall i | 0 <= i < HEADER_LEN && i != 14 && i != 15 ensures z[i] == buf[i] {
      assert z[i] == z[..HEADER_LEN][i] && buf[i] == buf[..HEADER_LEN][i];
    }
  }

  lemma {:induction false} DataSumSplit(data: seq<Byte>, n: nat)
    requires n <= |data|
    ensures DataSum(data) == DataSum(data[..n]) + DataSum(data[n..])
  {
    if n == |data| {
      assert data[..n] == data;
    } else {
      var front := data[..|data| - 1];
      DataSumSplit(front, n);
      assert front[..n] == data[..n] && front[n..] == data[n..][..|data| - n - 1];
    }
  }

  function Cut(buf: seq<Byte>, n: Word): seq<Byte>
    requires HEADER_LEN <= n < |buf|
  {
    buf[..n][14 := n / 0x100][15 := n % 0x100]
  }

  lemma CutArrives(buf: seq<Byte>, n: Word)
    requires Arrived(buf) && HEADER_LEN <= n < |buf|
    ensures Arrived(Cut(buf, n)) && ParsedHeader(Cut(buf, n)) == ParsedHeader(buf).(plen := n)
    ensures Cut(buf, n)[..HEADER_LEN] == buf[..HEADER_LEN][14 := n / 0x100][15 := n % 0x100]
  {
    WordBack(n);
    assert Get16(Cut(buf, n), 14) == n;
    SameHeader(buf, n / 0x100, n % 0x100, Cut(buf, n));
  }

  lemma CutMoves(buf: seq<Byte>, n: Word)
    requires Arrived(buf) && HEADER_LEN <= ParsedHeader(buf).hlen <= n < |buf| && Arrived(Cut(buf, n))
    ensures PlenShare(Cut(buf, n)) - PlenShare(buf) == Swapped(n) - (Swapped(|buf|) + DataSum(buf[n..]))
  {
    var z, hlen := Cut(buf, n), ParsedHeader(buf).hlen;
    CutArrives(buf, n);
    DataSumSplit(buf[hlen..], n - hlen);
    assert buf[hlen..][n - hlen..] == buf[n..];
    assert buf[hlen..][..n - hlen] == z[hlen..];
    assert n == hlen ==> z[hlen..] == [];
  }

  lemma WrapMoves(t: int, u: int, x: int, y: int)
    requires t - u == x - y
    ensures Wrapped(t) == Wrapped(u) <==> Wrapped(x) == Wrapped(y)
  {
    WrappedIsRemainder(t);
    WrappedIsRemainder(u);
    WrappedIsRemainder(x);
    WrappedIsRemainder(y);
    SameRemainder(u, t, x, y);
  }

  /** A shorter `plen` cuts the payload. It goes unnoticed if and only if what is cut off makes up for
      the other length. */
  lemma CutExactly(buf: seq<Byte>, n: Word)
    requires Arrived(buf) && Checks(Parsed(buf)) && HEADER_LEN <= ParsedHeader(buf).hlen <= n < |buf|
    ensures Arrived(Cut(buf, n))
    ensures Checks(Parsed(Cut(buf, n))) <==> Wrapped(Swapped(n)) == Wrapped(Swapped(|buf|) + DataSum(buf[n..]))
  {
    CutArrives(buf, n);
    var z := Cut(buf, n);
    PlenExactly(buf, n / 0x100, n % 0x100, z);
    CutMoves(buf, n);
    WrapMoves(PlenShare(z), PlenShare(buf), Swapped(n), Swapped(|buf|) + DataSum(buf[n..]));
  }

  lemma {:induction false} LoneByte(data: seq<Byte>)
    requires |data| > 0 && forall i :: 1 <= i < |data| ==> data[i] == 0
    ensures DataSum(data) == Signed(data[0])
  {
    if |data| > 1 {
      LoneByte(data[..|data| - 1]);
    } else {
      assert data[..0] == [];
    }
  }

  lemma SharesAgree(buf: seq<Byte>, z: seq<Byte>)
    requires |buf| == |z| == 278 && TailSum(buf, 22) == 1
    ensures HlenShare(buf, 22) == HlenShare(z, 278)
  {
    assert Swapped(22) == 0x1600 && Swapped(278) == 0x1601;
  }

  /** It happens: 256 bytes of payload, a one and zeros, pass as no payload when the upper byte of `hlen`
      turns from 0 to 1. */
  lemma HlenUnnoticed(h: Header) returns (p: Packet)
    requires h.hlen == HEADER_LEN && h.plen == HEADER_LEN + 256
    ensures WellFormed(p) && p.header.hlen == HEADER_LEN && |p.data| == 256 && Checks(p)
    ensures var z := Serialised(p)[12 := 1];
      Arrived(z) && Checks(Parsed(z)) && Parsed(z).data == []
  {
    var data: seq<Byte> := [1] + Zeros(255);
    p := WithChecksum(Packet(h, data));
    SentIsAccepted(Packet(h, data));
    LoneByte(data);
    HlenTurned(p, Serialised(p));
  }

  lemma HlenTurned(p: Packet, buf: seq<Byte>)
    requires Arrived(buf) && Parsed(buf) == p && Checks(p) && |buf| == 278
    requires p.header.hlen == HEADER_LEN && DataSum(p.data) == 1
    ensures var z := buf[12 := 1]; Arrived(z) && Checks(Parsed(z)) && Parsed(z).data == []
  {
    assert Get16(buf, 12) == 22;
    assert buf[12 := 1] == buf[12 := 1][13 := 22];
    HlenExactly(buf, 1, 22);
    TailIsPayload(buf);
    SharesAgree(buf, buf[12 := 1]);
  }

  /** It happens: a packet with 257 bytes of payload, the last 256 of them 0xFF and zeros, passes with the
      first alone when the upper byte of `plen` turns from 1 to 0. */
  lemma CutUnnoticed(h: Header, first: Byte) returns (p: Packet)
    requires h.hlen == HEADER_LEN && h.plen == HEADER_LEN + 257
    ensures WellFormed(p) && p.header.hlen == HEADER_LEN && |p.data| == 257 && Checks(p)
    ensures var z := Serialised(p)[..23][14 := 0];
      Arrived(z) && Checks(Parsed(z)) && Parsed(z).data == [first]
  {
    var tail: seq<Byte> := [0xFF] + Zeros(255);
    var data: seq<Byte> := [first] + tail;
    p := WithChecksum(Packet(h, data));
    SentIsAccepted(Packet(h, data));
    LoneByte(tail);
    PlenTurned(p, Serialised(p), first, tail);
  }

  lemma PlenTurned(p: Packet, buf: seq<Byte>, first: Byte, tail: seq<Byte>)
    requires Arrived(buf) && Parsed(buf) == p && Checks(p) && |buf| == 279
    requires p.header.hlen == HEADER_LEN && p.data == [first] + tail && |tail| == 256 && DataSum(tail) == -1
    ensures var z := buf[..23][14 := 0]; Arrived(z) && Checks(Parsed(z)) && Parsed(z).data == [first]
  {
    assert Get16(buf, 14) == 279;
    assert buf[..23][14 := 0] == Cut(buf, 23);
    assert buf[22..] == p.data && buf[23..] == tail by { assert buf[23..] == buf[22..][1..]; }
    CutExactly(buf, 23);
    CutArrives(buf, 23);
    assert Swapped(23) == 0x1700 && Swapped(279) == 0x1701;
  }

  datatype WordField = Src | Dst | Window | Check

  function WordOf(h: Header, f: WordField): Word {
    match f case Src => h.src case Dst => h.dst case Window => h.window case Check => h.checksum
  }

  function SetWord(p: Packet, f: WordField, x: Word): Packet {
    var h := p.header;
    p.(header := match f
                 case Src => h.(src := x)
                 case Dst => h.(dst := x)
                 case Window => h.(window := x)
                 case Check => h.(checksum := x))
  }

  lemma SetWordMoves(p: Packet, f: WordField, x: Word)
    ensures Total(SetWord(p, f, x)) - Total(p) == x - WordOf(p.header, f)
  {
  }

  lemma WordIsItself(x: Word)
    ensures x % 0x1_0000 == x
  {
  }

  /** One 16-bit field of an accepted packet altered as a whole never goes unnoticed. */
  lemma OneWordExactly(p: Packet, f: WordField, x: Word)
    requires Checks(p)
    ensures Checks(SetWord(p, f, x)) <==> x == WordOf(p.header, f)
  {
    var q, y := SetWord(p, f, x), WordOf(p.header, f);
    assert Checks(q) <==> x == y by {
      SetWordMoves(p, f, x);
      AcceptedToo(p, q, x, y);
      WordIsItself(x);
      WordIsItself(y);
    }
  }

  /** A 32-bit field altered as a whole goes unnoticed if and only if its lower half is as it was. */
  lemma OneLongExactly(p: Packet, y: Long)
    requires Checks(p)
    ensures Checks(p.(header := p.header.(seqNum := y))) <==> y % 0x1_0000 == p.header.seqNum % 0x1_0000
    ensures Checks(p.(header := p.header.(ackNum := y))) <==> y % 0x1_0000 == p.header.ackNum % 0x1_0000
  {
    var h := p.header;
    AcceptedToo(p, p.(header := h.(seqNum := y)), y, h.seqNum);
    AcceptedToo(p, p.(header := h.(ackNum := y)), y, h.ackNum);
  }

  // ---------- The code ----------

  /** `cksum += x` on an `unsigned short` that stands for `total`. */
  method Accumulate(cksum: Word, x: int, ghost total: int) returns (r: Word)
    requires cksum == total % 0x1_0000
    ensures r == (total + x) % 0x1_0000
  {
    SameRemainder(total + x, cksum + x, cksum, total);
    r := (cksum + x) % 0x1_0000;
  }

  method HeaderPart(h: Header) returns (cksum: Word)
    ensures cksum == HeaderSum(h) % 0x1_0000
  {
    cksum := Accumulate(0, h.src, 0);
    cksum := Accumulate(cksum, h.dst, h.src);
    cksum := Accumulate(cksum, h.seqNum, h.src + h.dst);
    ghost var total := h.src + h.dst + h.seqNum;
    cksum := Accumulate(cksum, h.ackNum, total);
    cksum := Accumulate(cksum, Swapped(h.hlen), total + h.ackNum);
    total := total + h.ackNum + Swapped(h.hlen);
    cksum := Accumulate(cksum, Swapped(h.plen), total);
    cksum := Accumulate(cksum, h.flags, total + Swapped(h.plen));
    total := total + Swapped(h.plen) + h.flags;
    cksum := Accumulate(cksum, h.window, total);
    cksum := Accumulate(cksum, h.ext, total + h.window);
  }

  /** `tcp_compute_checksum`: wraps at every addition; the fold before the complement adds nothing. */
  method ComputeChecksum(p: Packet) returns (cksum: Word)
    requires |p.data| == DataLen(p.header)
    ensures cksum == Checksum(p)
  {
    cksum := HeaderPart(p.header);
    var dataLen: int := p.header.plen - p.header.hlen;
    var at := 0;
    while dataLen > 0
      invariant at <= |p.data| && (dataLen > 0 ==> dataLen == |p.data| - at) && (dataLen <= 0 ==> at == |p.data|)
      invariant cksum == (HeaderSum(p.header) + DataSum(p.data[..at])) % 0x1_0000
    {
      assert p.data[..at + 1][..at] == p.data[..at];
      cksum := Accumulate(cksum, Signed(p.data[at]), HeaderSum(p.header) + DataSum(p.data[..at]));
      at := at + 1;
      dataLen := dataLen - 1;
    }
    assert p.data[..at] == p.data;
    WrappedIsRemainder(HeaderSum(p.header) + DataSum(p.data));
    cksum := cksum / 0x1_0000 + cksum % 0x1_0000;
    cksum := 0xFFFF - cksum;
  }

  /** `create_packet` */
  method CreatePacket(h: Header, data: seq<Byte>) returns (p: Packet)
    requires |data| == DataLen(h)
    ensures p == WithChecksum(Packet(h, data)) && Checks(p)
  {
    p := Packet(h, data);
    var cksum := ComputeChecksum(p);
    p := p.(header := p.header.(checksum := cksum));
  }

  /** `tcp_check` */
  method TcpCheck(p: Packet) returns (ok: bool)
    requires |p.data| == DataLen(p.header)
    ensures ok <==> Checks(p)
  {
    var cksum := ComputeChecksum(p);
    ok := p.header.checksum == cksum;
  }

  /** Everything but `msg[index..next]` stays. */
  method Put16(msg: array<Byte>, index: nat, x: Word) returns (next: nat)
    requires index + 2 <= msg.Length
    modifies msg
    ensures next == index + 2
    ensures msg[..next] == old(msg[..index]) + Bytes16(x)
    ensures forall i :: next <= i < msg.Length ==> msg[i] == old(msg[i])
  {
    next := index + 2;
    msg[index], msg[index + 1] := x / 0x100, x % 0x100;
  }

  method Put32(msg: array<Byte>, index: nat, x: Long) returns (next: nat)
    requires index + 4 <= msg.Length
    modifies msg
    ensures next == index + 4
    ensures msg[..next] == old(msg[..index]) + Bytes32(x)
    ensures forall i :: next <= i < msg.Length ==> msg[i] == old(msg[i])
  {
    next := Put16(msg, index, x / 0x1_0000);
    next := Put16(msg, next, x % 0x1_0000);
  }

  method Put8(msg: array<Byte>, index: nat, x: Byte) returns (next: nat)
    requires index < msg.Length
    modifies msg
    ensures next == index + 1
    ensures msg[..next] == old(msg[..index]) + [x]
    ensures forall i :: next <= i < msg.Length ==> msg[i] == old(msg[i])
  {
    msg[index] := x;
    next := index + 1;
  }

  method PutNumbers(msg: array<Byte>, h: Header) returns (next: nat)
    requires msg.Length >= HEADER_LEN
    modifies msg
    ensures next == 12
    ensures msg[..next] == Bytes16(h.src) + Bytes16(h.dst) + Bytes32(h.seqNum) + Bytes32(h.ackNum)
    ensures forall i :: next <= i < msg.Length ==> msg[i] == old(msg[i])
  {
    next := Put16(msg, 0, h.src);
    assert msg[..next] == Bytes16(h.src);
    next := Put16(msg, next, h.dst);
    next := Put32(msg, next, h.seqNum);
    next := Put32(msg, next, h.ackNum);
  }

  method PutOthers(msg: array<Byte>, index: nat, h: Header) returns (next: nat)
    requires msg.Length >= HEADER_LEN && index == 12
    modifies msg
    ensures next == HEADER_LEN
    ensures msg[..next] == old(msg[..index]) + Bytes16(h.hlen) + Bytes16(h.plen) + [h.flags]
                           + Bytes16(h.window) + [h.ext] + Bytes16(h.checksum)
    ensures forall i :: next <= i < msg.Length ==> msg[i] == old(msg[i])
  {
    next := Put16(msg, index, h.hlen);
    next := Put16(msg, next, h.plen);
    next := Put8(msg, next, h.flags);
    next := Put16(msg, next, h.window);
    next := Put8(msg, next, h.ext);
    next := Put16(msg, next, h.checksum);
  }

  /** `header_in_char`: a zeroed buffer of `plen` bytes with the header at its front. */
  method HeaderInChar(h: Header) returns (msg: array<Byte>)
    requires h.plen >= HEADER_LEN
    ensures fresh(msg) && msg.Length == h.plen
    ensures msg[..] == HeaderBytes(h) + Zeros(h.plen - HEADER_LEN)
  {
    msg := new Byte[h.plen](_ => 0);
    var index := PutNumbers(msg, h);
    index := PutOthers(msg, index, h);
    assert msg[..HEADER_LEN] == HeaderBytes(h);
    assert msg[HEADER_LEN..] == Zeros(h.plen - HEADER_LEN);
    assert msg[..] == msg[..HEADER_LEN] + msg[HEADER_LEN..];
  }

  /** The copy of the payload to the end of the buffer. */
  method CopyPayload(msg: array<Byte>, at: nat, data: seq<Byte>)
    requires at + |data| == msg.Length
    modifies msg
    ensures msg[..] == old(msg[..at]) + data
  {
    forall i | 0 <= i < |data| {
      msg[at + i] := data[i];
    }
    assert msg[..] == msg[..at] + msg[at..];
  }

  /** `packet_to_buf` */
  method PacketToBuf(p: Packet) returns (msg: array<Byte>)
    requires WellFormed(p)
    ensures fresh(msg) && msg[..] == Serialised(p)
  {
    msg := HeaderInChar(p.header);
    if p.header.plen > p.header.hlen {
      var at: nat := p.header.hlen;
      ZerosBefore(msg[..], p.header, at);
      CopyPayload(msg, at, p.data);
      assert msg[..] == HeaderBytes(p.header) + (Zeros(at - HEADER_LEN) + p.data);
    }
  }

  lemma ZerosBefore(msg: seq<Byte>, h: Header, at: nat)
    requires HEADER_LEN <= at <= |msg| && msg == HeaderBytes(h) + Zeros(|msg| - HEADER_LEN)
    ensures msg[..at] == HeaderBytes(h) + Zeros(at - HEADER_LEN)
  {
  }

  /** `buf_to_packet` */
  method BufToPacket(buf: array<Byte>) returns (p: Packet)
    requires Arrived(buf[..])
    ensures p == Parsed(buf[..])
  {
    var h := ParsedHeader(buf[..]);
    var len: int := h.plen - h.hlen;
    p := Packet(h, if len > 0 then buf[h.hlen..h.hlen + len] else []);
  }

  /** From `create_packet_buf` on one side to `tcp_check` on the other. */
  method SendAndCheck(h: Header, data: seq<Byte>) returns (q: Packet, ok: bool)
    requires WellFormed(Packet(h, data))
    ensures ok && q == WithChecksum(Packet(h, data))
  {
    var p := CreatePacket(h, data);
    SentIsAccepted(Packet(h, data));
    var buf := PacketToBuf(p);
    q := BufToPacket(buf);
    ok := TcpCheck(q);
  }
}
