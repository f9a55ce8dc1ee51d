/**
 The TCP sender of `src/net.c`: a ring of unacknowledged segments, cumulative acknowledgements under
 wrapping sequence numbers, retransmission with backoff, and the congestion window.
 */
module TcpSender {
  import opened Sectors

  const WORD: nat := 0x1_0000_0000
  const HALF: nat := 0x8000_0000
  const MSS: nat := 480
  const RTO_MIN: nat := 100
  const RTO_MAX: nat := 800
  const RETRIES: nat := 5
  const CWND_MAX: nat := 65535
  const TXQ_MAX: nat := 8

  type Word = w: nat | w < WORD

  /** A queued segment. */
  datatype Entry = Entry(seq_: Word, end: Word, syn: bool, fin: bool, data: seq<Byte>)

  datatype Tcp = Tcp(una: Word, nxt: Word, cwnd: nat, ssthresh: nat, rto: nat, retries: nat, deadline: Word,
                     ring: seq<Entry>, head: nat, count: nat, closed: bool)

  predicate Shape(t: Tcp) { |t.ring| == TXQ_MAX && t.head < TXQ_MAX && t.count <= TXQ_MAX }

  // ---------------------------------------------------------------- wrapping sequence numbers

  function Minus(a: Word, b: Word): (r: Word) { (a - b) % WORD }

  /** `(int32_t)(a - b) < 0`. */
  predicate Before(a: Word, b: Word) { Minus(a, b) >= HALF }

  /** For positions less than half the number space apart, the wrapped test is the real order. */
  lemma WrapOrder(x: nat, y: nat)
    requires -(HALF as int) < x - y < HALF
    ensures Before(x % WORD, y % WORD) <==> x < y
    ensures Minus(x % WORD, y % WORD) == 0 <==> x == y
    ensures x >= y ==> Minus(x % WORD, y % WORD) == x - y
  {
    WrapDifference(x, y);
  }

  lemma WrapDifference(x: nat, y: nat)
    ensures (x % WORD - y % WORD) % WORD == (x - y) % WORD
  {
    var p, q := x / WORD, y / WORD;
    assert x % WORD - y % WORD == (x - y) + WORD * (q - p);
    ModShift(x - y, q - p);
  }

  lemma ModShift(a: int, k: int)
    ensures (a + WORD * k) % WORD == a % WORD
  {
    assert a == WORD * (a / WORD) + a % WORD;
    assert a + WORD * k == WORD * (a / WORD + k) + a % WORD;
  }

  // ---------------------------------------------------------------- the sender's steps

  /** tcp_send_seg: the copy kept for retransmission; a full queue keeps none. */
  function Keep(t: Tcp, at: Word, syn: bool, fin: bool, data: seq<Byte>, now: Word): (r: Tcp)
    requires Shape(t)
    ensures Shape(r)
  {
    var end := (at + |data| + (if syn then 1 else 0) + (if fin then 1 else 0)) % WORD;
    var e := Entry(at, end, syn, fin, if |data| > MSS then data[..MSS] else data);
    if (|data| == 0 && !syn && !fin) || t.count >= TXQ_MAX then t
    else
      var r := t.(ring := t.ring[(t.head + t.count) % TXQ_MAX := e], count := t.count + 1);
      if t.count == 0 then r.(rto := RTO_MIN, retries := 0, deadline := (now + RTO_MIN) % WORD) else r
  }

  /** The retiring loop of tcp_ack. */
  function Retire(t: Tcp, ack: Word): (r: Tcp)
    requires Shape(t)
    ensures Shape(r)
    decreases t.count
  {
    if t.count == 0 || Before(ack, t.ring[t.head].end) then t
    else Retire(t.(head := (t.head + 1) % TXQ_MAX, count := t.count - 1, retries := 0), ack)
  }

  /** The share of a segment that one acknowledgement adds in congestion avoidance. */
  function Share(cwnd: nat): (r: nat)
    requires cwnd > 0
    ensures cwnd >= MSS ==> r <= MSS
  {
    if cwnd >= MSS then ShareBound(cwnd); MSS * MSS / cwnd else MSS * MSS / cwnd
  }

  lemma ShareBound(c: nat)
    requires c >= MSS
    ensures MSS * MSS / c <= MSS
  {
    var q := MSS * MSS / c;
    assert q * c <= MSS * MSS;
    Product(q, c);
  }

  lemma Product(q: nat, c: nat)
    ensures q > MSS && c >= MSS ==> q * c > MSS * MSS
  {
  }

  /** The congestion window after an acknowledgement: slow start below the threshold, linear above. */
  function Grow(cwnd: nat, ssthresh: nat): (r: nat)
    ensures MSS <= cwnd <= CWND_MAX ==> cwnd <= r <= CWND_MAX && r <= cwnd + MSS
  {
    var c := if cwnd >= ssthresh then cwnd + Share(if cwnd == 0 then MSS else cwnd) else cwnd + MSS;
    if c > CWND_MAX then CWND_MAX else c
  }

  /** tcp_ack. */
  function Ack(t: Tcp, ack: Word, now: Word): (r: Tcp)
    requires Shape(t)
    ensures Shape(r)
  {
    if Minus(ack, t.una) == 0 || Before(ack, t.una) then t
    else
      var q := Retire(t.(una := ack), ack);
      var u := if q.count > 0 then q.(rto := RTO_MIN, deadline := (now + RTO_MIN) % WORD) else q;
      u.(cwnd := Grow(q.cwnd, q.ssthresh))
  }

  /** Whether tcp_timers acts on this socket. */
  predicate Expired(t: Tcp, now: Word) { !t.closed && t.count > 0 && !Before(now, t.deadline) }

  /** tcp_timers for one socket: give up after five tries, else collapse the window and back off. */
  function Timeout(t: Tcp, now: Word): (r: Tcp)
    requires Shape(t)
    ensures Shape(r)
  {
    if !Expired(t, now) then t
    else if t.retries >= RETRIES then t.(count := 0, closed := true)
    else
      var rto := if t.rto < RTO_MAX / 2 then t.rto * 2 else RTO_MAX;
      t.(retries := t.retries + 1, ssthresh := if t.cwnd > MSS * 2 then t.cwnd / 2 else MSS * 2, cwnd := MSS, rto := rto,
         deadline := (now + rto) % WORD)
  }

  /** Whether a timeout sends the head again, and what it sends. */
  predicate Resends(t: Tcp, now: Word) { Expired(t, now) && t.retries < RETRIES }

  /** The room tcp_send_data sees in the window, and the chunk it sends into it. */
  function Room(t: Tcp): (n: nat) {
    var inflight := Minus(t.nxt, t.una);
    var window := if t.cwnd == 0 then MSS else t.cwnd;
    if inflight >= window then 0 else window - inflight
  }

  function Chunk(t: Tcp, left: nat): (n: nat)
    ensures n <= left && n <= MSS && n <= Room(t) && (left > 0 && Room(t) > 0 ==> n > 0)
  {
    var c := if left > MSS then MSS else left;
    if c > Room(t) then Room(t) else c
  }

  /** One round of tcp_send_data with room in the window. */
  function SendChunk(t: Tcp, data: seq<Byte>, now: Word): (r: Tcp)
    requires Shape(t)
    ensures Shape(r)
  {
    Keep(t, t.nxt, false, false, data, now).(nxt := (t.nxt + |data|) % WORD)
  }

  /** SYN and FIN take one sequence number. */
  function SendFlag(t: Tcp, syn: bool, now: Word): (r: Tcp)
    requires Shape(t)
    ensures Shape(r)
  {
    Keep(t, t.nxt, syn, !syn, [], now).(nxt := (t.nxt + 1) % WORD)
  }

  // ---------------------------------------------------------------- what the ring means

  /** A segment in unwrapped positions: what was sent and must be acknowledged. */
  datatype Seg = Seg(start: nat, end: nat, data: seq<Byte>)

  /** The connection in unwrapped positions: acknowledged up to `una`, sent up to `nxt`. */
  datatype Flight = Flight(una: nat, nxt: nat, segs: seq<Seg>)

  predicate Ordered(f: Flight) {
    && f.una <= f.nxt && (forall k | 0 <= k < |f.segs| :: f.una < f.segs[k].end <= f.nxt && f.segs[k].start < f.segs[k].end)
    && (forall j, k | 0 <= j < k < |f.segs| :: f.segs[j].end <= f.segs[k].start)
  }

  predicate Same(e: Entry, s: Seg) { e.seq_ == s.start % WORD && e.end == s.end % WORD && e.data == s.data }

  /** The segments and the ring agree. */
  predicate Aligned(t: Tcp, segs: seq<Seg>) {
    Shape(t) && |segs| == t.count && forall k | 0 <= k < t.count :: Same(t.ring[(t.head + k) % TXQ_MAX], segs[k])
  }

  predicate Tracks(t: Tcp, f: Flight) {
    Aligned(t, f.segs) && Ordered(f) && f.nxt - f.una < HALF && t.una == f.una % WORD && t.nxt == f.nxt % WORD
  }

  predicate Ranges(t: Tcp) {
    && MSS <= t.cwnd <= CWND_MAX && MSS <= t.ssthresh <= CWND_MAX && t.retries <= RETRIES
    && (t.count > 0 ==> RTO_MIN <= t.rto <= RTO_MAX)
  }

  /** How many of the segments an acknowledgement of position `a` covers. */
  function Covered(segs: seq<Seg>, a: nat): (n: nat)
    ensures n <= |segs|
    ensures forall k | 0 <= k < n :: segs[k].end <= a
    ensures n < |segs| ==> segs[n].end > a
    decreases |segs|
  {
    if segs == [] || segs[0].end > a then 0
    else
      var n := 1 + Covered(segs[1..], a);
      assert forall k | 0 <= k < n :: segs[k].end <= a by {
        forall k | 0 <= k < n ensures segs[k].end <= a {
          assert k > 0 ==> segs[k] == segs[1..][k - 1];
        }
      }
      n
  }

  function Acked(f: Flight, a: nat): (r: Flight) { Flight(a, f.nxt, f.segs[Covered(f.segs, a)..]) }

  /** Exactly the wholly acknowledged segments are gone. */
  lemma CoveredExactly(f: Flight, a: nat, k: nat)
    requires Ordered(f) && k < |f.segs|
    ensures f.segs[k].end <= a <==> k < Covered(f.segs, a)
  {
    var n := Covered(f.segs, a);
    if n < k {
      assert f.segs[n].end <= f.segs[k].start;
    }
  }

  /** The ring positions after the head moved by one. */
  lemma RingNext(head: nat, k: nat)
    requires head < TXQ_MAX
    ensures ((head + 1) % TXQ_MAX + k) % TXQ_MAX == (head + (k + 1)) % TXQ_MAX
  {
  }

  lemma PopAligned(t: Tcp, segs: seq<Seg>)
    requires Aligned(t, segs) && t.count > 0
    ensures Aligned(t.(head := (t.head + 1) % TXQ_MAX, count := t.count - 1, retries := 0), segs[1..])
  {
    var r := t.(head := (t.head + 1) % TXQ_MAX, count := t.count - 1, retries := 0);
    forall k | 0 <= k < r.count ensures Same(r.ring[(r.head + k) % TXQ_MAX], segs[1..][k]) {
      RingNext(t.head, k);
      assert Same(t.ring[(t.head + (k + 1)) % TXQ_MAX], segs[k + 1]);
    }
  }

  /** Every end lies within half the number space of `a`. */
  predicate Near(segs: seq<Seg>, a: nat) { forall k | 0 <= k < |segs| :: -(HALF as int) < a - segs[k].end < HALF }

  lemma HeadFirst(t: Tcp, segs: seq<Seg>, a: nat)
    requires Aligned(t, segs) && t.count > 0 && Near(segs, a)
    ensures Before(a % WORD, t.ring[t.head].end) <==> a < segs[0].end
  {
    assert Same(t.ring[(t.head + 0) % TXQ_MAX], segs[0]);
    WrapOrder(a, segs[0].end);
  }

  /** Two states that differ only in the queue and the retry count. */
  predicate SameElse(r: Tcp, t: Tcp) {
    && r.una == t.una && r.nxt == t.nxt && r.cwnd == t.cwnd && r.ssthresh == t.ssthresh && r.rto == t.rto
    && r.deadline == t.deadline && r.closed == t.closed
  }

  lemma {:induction false} RetireAligned(t: Tcp, segs: seq<Seg>, a: nat)
    requires Aligned(t, segs) && Near(segs, a)
    ensures Aligned(Retire(t, a % WORD), segs[Covered(segs, a)..]) && SameElse(Retire(t, a % WORD), t)
    ensures Retire(t, a % WORD).retries == if Covered(segs, a) > 0 then 0 else t.retries
    decreases t.count
  {
    assert segs[0..] == segs;
    if t.count > 0 {
      HeadFirst(t, segs, a);
      if segs[0].end <= a {
        PopAligned(t, segs);
        var n := Covered(segs[1..], a);
        RetireAligned(t.(head := (t.head + 1) % TXQ_MAX, count := t.count - 1, retries := 0), segs[1..], a);
        assert segs[1..][n..] == segs[n + 1..];
      }
    }
  }

  /** Timer and window do not matter to the ring. */
  lemma AckAligned(t: Tcp, ack: Word, now: Word, segs: seq<Seg>)
    requires Shape(t) && Minus(ack, t.una) != 0 && !Before(ack, t.una) && Aligned(Retire(t.(una := ack), ack), segs)
    ensures Aligned(Ack(t, ack, now), segs) && Ack(t, ack, now).una == Retire(t.(una := ack), ack).una
    ensures Ack(t, ack, now).nxt == Retire(t.(una := ack), ack).nxt
  {
  }

  /** A cumulative acknowledgement of position `a` in (una, nxt] retires exactly the segments that end by `a`. */
  lemma AckTracks(t: Tcp, f: Flight, a: nat, now: Word)
    requires Tracks(t, f) && f.una < a <= f.nxt
    ensures Tracks(Ack(t, a % WORD, now), Acked(f, a))
  {
    WrapOrder(a, f.una);
    RetireAligned(t.(una := a % WORD), f.segs, a);
    AckAligned(t, a % WORD, now, f.segs[Covered(f.segs, a)..]);
    AckedOrdered(f, a);
  }

  lemma AckedOrdered(f: Flight, a: nat)
    requires Ordered(f) && f.una < a <= f.nxt
    ensures Ordered(Acked(f, a))
  {
    var n := Covered(f.segs, a);
    forall k | n <= k < |f.segs| ensures f.segs[k].end > a {
      CoveredExactly(f, a, k);
    }
  }

  /** An old or repeated acknowledgement changes nothing. */
  lemma AckOld(t: Tcp, f: Flight, a: nat, now: Word)
    requires Tracks(t, f) && a <= f.una && f.una - a < HALF
    ensures Ack(t, a % WORD, now) == t
  {
    WrapOrder(a, f.una);
  }

  /** A copy is appended to the ring, unless the ring is full. */
  lemma KeepAligned(t: Tcp, segs: seq<Seg>, s: Seg, syn: bool, fin: bool, now: Word)
    requires Aligned(t, segs) && t.count < TXQ_MAX && |s.data| <= MSS && (|s.data| > 0 || syn || fin)
    requires s.end == s.start + |s.data| + (if syn then 1 else 0) + (if fin then 1 else 0)
    ensures Aligned(Keep(t, s.start % WORD, syn, fin, s.data, now), segs + [s])
  {
    var r := Keep(t, s.start % WORD, syn, fin, s.data, now);
    WrapSum(s.start, s.end - s.start);
    AppendAligned(t, segs, s, r.ring[(t.head + t.count) % TXQ_MAX], r);
  }

  /** One more entry behind the others. */
  lemma AppendAligned(t: Tcp, segs: seq<Seg>, s: Seg, e: Entry, r: Tcp)
    requires Aligned(t, segs) && t.count < TXQ_MAX && Same(e, s)
    requires r.ring == t.ring[(t.head + t.count) % TXQ_MAX := e] && r.head == t.head && r.count == t.count + 1
    ensures Aligned(r, segs + [s])
  {
    forall k | 0 <= k < r.count ensures Same(r.ring[(r.head + k) % TXQ_MAX], (segs + [s])[k]) {
      if k < t.count {
        assert Same(t.ring[(t.head + k) % TXQ_MAX], segs[k]);
        RingDistinct(t.head, k, t.count);
      }
    }
  }

  lemma RingDistinct(head: nat, j: nat, k: nat)
    requires j < k < TXQ_MAX
    ensures (head + j) % TXQ_MAX != (head + k) % TXQ_MAX
  {
  }

  lemma WrapSum(x: nat, n: nat)
    ensures (x % WORD + n) % WORD == (x + n) % WORD
  {
    assert x % WORD + n == x + n + WORD * -(x / WORD);
    ModShift(x + n, -(x / WORD));
  }

  /** The flight after a segment was sent; it is remembered only if the ring had room. */
  function Sent(t: Tcp, f: Flight, n: nat, data: seq<Byte>): (r: Flight) {
    Flight(f.una, f.nxt + n, if t.count < TXQ_MAX then f.segs + [Seg(f.nxt, f.nxt + n, data)] else f.segs)
  }

  lemma SentOrdered(t: Tcp, f: Flight, n: nat, data: seq<Byte>)
    requires Ordered(f) && n > 0
    ensures Ordered(Sent(t, f, n, data))
  {
    var r := Sent(t, f, n, data);
    forall j, k | 0 <= j < k < |r.segs| ensures r.segs[j].end <= r.segs[k].start {
      assert k < |f.segs| ==> f.segs[j].end <= f.segs[k].start;
    }
  }

  lemma KeepTracks(t: Tcp, f: Flight, n: nat, data: seq<Byte>, syn: bool, fin: bool, now: Word)
    requires Tracks(t, f) && |data| <= MSS && n > 0 && n == |data| + (if syn then 1 else 0) + (if fin then 1 else 0)
    ensures Aligned(Keep(t, t.nxt, syn, fin, data, now), Sent(t, f, n, data).segs)
    ensures Keep(t, t.nxt, syn, fin, data, now).una == t.una && (t.nxt + n) % WORD == (f.nxt + n) % WORD
  {
    WrapSum(f.nxt, n);
    if t.count < TXQ_MAX {
      KeepAligned(t, f.segs, Seg(f.nxt, f.nxt + n, data), syn, fin, now);
    }
  }

  lemma ChunkTracks(t: Tcp, f: Flight, data: seq<Byte>, now: Word)
    requires Tracks(t, f) && 0 < |data| <= MSS && f.nxt + |data| - f.una < HALF
    ensures Tracks(SendChunk(t, data, now), Sent(t, f, |data|, data))
  {
    SentOrdered(t, f, |data|, data);
    KeepTracks(t, f, |data|, data, false, false, now);
  }

  lemma FlagTracks(t: Tcp, f: Flight, syn: bool, now: Word)
    requires Tracks(t, f) && f.nxt + 1 - f.una < HALF
    ensures Tracks(SendFlag(t, syn, now), Sent(t, f, 1, []))
  {
    SentOrdered(t, f, 1, []);
    KeepTracks(t, f, 1, [], syn, !syn, now);
  }

  lemma TimeoutTracks(t: Tcp, f: Flight, now: Word)
    requires Tracks(t, f)
    ensures Tracks(Timeout(t, now), if Timeout(t, now).closed && !t.closed then f.(segs := []) else f)
  {
  }

  /** In unwrapped terms the room is what the window leaves. */
  lemma RoomIs(t: Tcp, f: Flight)
    requires Tracks(t, f) && Ranges(t)
    ensures Room(t) == if f.nxt - f.una >= t.cwnd then 0 else t.cwnd - (f.nxt - f.una)
  {
    WrapOrder(f.nxt, f.una);
  }
}
