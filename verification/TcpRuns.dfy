/**
 Runs of the TCP sender: the ring always holds the unacknowledged segments, the window and the timer
 stay in range, and a stalled connection gives up.
 */
module TcpRuns {
  import opened Options
  import opened Sectors
  import opened TcpSender

  /** Some of `left` is to be sent, an acknowledgement comes in, or the timer is looked at. */
  datatype Event =
    | Data(left: seq<Byte>, now: Word)
    | AckTo(ack: Word, now: Word)
    | Clock(now: Word)

  /** The sender and what its ring means. */
  datatype Conn = Conn(t: Tcp, f: Flight)

  /** Something is queued, or no retry has been counted, or the connection was given up. */
  predicate Counting(t: Tcp) { t.count > 0 || t.retries == 0 || t.closed }

  predicate Inv(c: Conn) { Tracks(c.t, c.f) && Ranges(c.t) && Counting(c.t) && c.f.nxt - c.f.una <= CWND_MAX }

  /** What one round of tcp_send_data sends of `left`: nothing when the window is full. */
  function Put(t: Tcp, left: seq<Byte>): (b: seq<Byte>) { if t.closed then [] else left[..Chunk(t, |left|)] }

  /** tcp_ack takes this acknowledgement as news. */
  predicate News(t: Tcp, ack: Word) { Minus(ack, t.una) != 0 && !Before(ack, t.una) }

  function Step(c: Conn, e: Event): (r: Conn)
    requires Shape(c.t)
    ensures Shape(r.t)
  {
    match e
    case Data(left, now) =>
      var b := Put(c.t, left);
      if b == [] then c else Conn(SendChunk(c.t, b, now), Sent(c.t, c.f, |b|, b))
    case AckTo(ack, now) =>
      Conn(Ack(c.t, ack, now), if News(c.t, ack) then Acked(c.f, c.f.una + Minus(ack, c.t.una)) else c.f)
    case Clock(now) =>
      var t := Timeout(c.t, now);
      Conn(t, if t.closed && !c.t.closed then c.f.(segs := []) else c.f)
  }

  lemma RetireRanges(t: Tcp, ack: Word)
    requires Shape(t) && Ranges(t)
    ensures Ranges(Retire(t, ack)) && SameElse(Retire(t, ack), t) && Retire(t, ack).count <= t.count
    ensures Retire(t, ack) == t || Retire(t, ack).retries == 0
    decreases t.count
  {
    if t.count > 0 && !Before(ack, t.ring[t.head].end) {
      RetireRanges(t.(head := (t.head + 1) % TXQ_MAX, count := t.count - 1, retries := 0), ack);
    }
  }

  lemma AckRanges(t: Tcp, ack: Word, now: Word)
    requires Shape(t) && Ranges(t)
    ensures Ranges(Ack(t, ack, now)) && (Counting(t) ==> Counting(Ack(t, ack, now)))
  {
    RetireRanges(t.(una := ack), ack);
  }

  /** An acknowledgement of something sent, or an old one. Nothing in tcp_ack looks at this. */
  predicate Acceptable(t: Tcp, ack: Word) { !News(t, ack) || Minus(ack, t.una) <= Minus(t.nxt, t.una) }

  /** In unwrapped terms: news of a position up to `nxt`. */
  lemma AckPosition(c: Conn, ack: Word) returns (a: nat)
    requires Tracks(c.t, c.f)
    ensures a == c.f.una + Minus(ack, c.t.una) && ack == a % TcpSender.WORD
    ensures Acceptable(c.t, ack) && News(c.t, ack) ==> c.f.una < a <= c.f.nxt
  {
    a := c.f.una + Minus(ack, c.t.una);
    WrapOrder(c.f.nxt, c.f.una);
    WrapBack(c.f.una, ack);
  }

  lemma WrapBack(x: nat, w: Word)
    ensures (x + Minus(w, x % TcpSender.WORD)) % TcpSender.WORD == w
  {
    var d := w - x % TcpSender.WORD;
    var q := d / TcpSender.WORD;
    assert x + Minus(w, x % TcpSender.WORD) == w + TcpSender.WORD * (x / TcpSender.WORD - q);
    ModShift(w, x / TcpSender.WORD - q);
  }

  /** Every step keeps the ring true, cwnd and ssthresh in 480..65535 and rto in 100..800. */
  lemma StepKeeps(c: Conn, e: Event)
    requires Inv(c) && (e.AckTo? ==> Acceptable(c.t, e.ack))
    ensures Inv(Step(c, e))
  {
    match e {
      case Data(left, now) =>
        if Put(c.t, left) != [] {
          SendKeeps(c, Put(c.t, left), now);
        }
      case AckTo(ack, now) => AckKeeps(c, ack, now);
      case Clock(now) => TimeoutTracks(c.t, c.f, now);
    }
  }

  lemma SendKeeps(c: Conn, b: seq<Byte>, now: Word)
    requires Inv(c) && 0 < |b| <= MSS && |b| <= Room(c.t)
    ensures Inv(Conn(SendChunk(c.t, b, now), Sent(c.t, c.f, |b|, b)))
  {
    RoomIs(c.t, c.f);
    ChunkTracks(c.t, c.f, b, now);
  }

  lemma AckKeeps(c: Conn, ack: Word, now: Word)
    requires Inv(c) && Acceptable(c.t, ack)
    ensures Inv(Step(c, AckTo(ack, now)))
  {
    AckRanges(c.t, ack, now);
    var a := AckPosition(c, ack);
    if News(c.t, ack) {
      AckTracks(c.t, c.f, a, now);
    }
  }

  /** What happens to a socket, whatever the network sends. */
  ghost predicate Trace(cs: seq<Conn>, es: seq<Event>) {
    && |cs| == |es| + 1 && (forall k | 0 <= k < |cs| :: Shape(cs[k].t))
    && forall k | 0 <= k < |es| :: Moves(cs, es, k)
  }

  ghost predicate Moves(cs: seq<Conn>, es: seq<Event>, k: nat)
    requires k < |es| && |cs| == |es| + 1 && Shape(cs[k].t)
  {
    cs[k + 1] == Step(cs[k], es[k])
  }

  /** A trace of a connection whose peer acknowledges only what was sent. */
  ghost predicate Run(cs: seq<Conn>, es: seq<Event>) {
    && Trace(cs, es) && Inv(cs[0])
    && forall k | 0 <= k < |es| && es[k].AckTo? :: Acceptable(cs[k].t, es[k].ack)
  }

  lemma {:induction false} RunKeeps(cs: seq<Conn>, es: seq<Event>, k: nat)
    requires Run(cs, es) && k < |cs|
    ensures Inv(cs[k])
  {
    if k > 0 {
      RunKeeps(cs, es, k - 1);
      assert Moves(cs, es, k - 1);
      StepKeeps(cs[k - 1], es[k - 1]);
    }
  }

  /** net_connect: the SYN is in flight. */
  function Connected(isn: Word, t: Tcp, now: Word): (c: Conn)
    requires Shape(t)
  {
    var u := t.(una := isn, nxt := isn, cwnd := MSS, ssthresh := CWND_MAX, head := 0, count := 0, closed := false);
    Conn(SendFlag(u, true, now), Sent(u, Flight(isn, isn, []), 1, []))
  }

  lemma ConnectedInv(isn: Word, t: Tcp, now: Word)
    requires Shape(t)
    ensures Inv(Connected(isn, t, now))
  {
    var u := t.(una := isn, nxt := isn, cwnd := MSS, ssthresh := CWND_MAX, head := 0, count := 0, closed := false);
    FlagTracks(u, Flight(isn, isn, []), true, now);
  }

  // ---------------------------------------------------------------- the window

  function Window(t: Tcp): (w: nat) { if t.cwnd == 0 then MSS else t.cwnd }

  /** Timer and window stay in range on every trace, whatever is acknowledged. */
  lemma {:induction false} TraceRanges(cs: seq<Conn>, es: seq<Event>, k: nat)
    requires Trace(cs, es) && Ranges(cs[0].t) && k < |cs|
    ensures Ranges(cs[k].t)
  {
    if k > 0 {
      TraceRanges(cs, es, k - 1);
      assert Moves(cs, es, k - 1);
      if es[k - 1].AckTo? {
        AckRanges(cs[k - 1].t, es[k - 1].ack, es[k - 1].now);
      }
    }
  }

  /** The wrapped distance after a chunk: the chunk adds to it without passing the window. */
  lemma ChunkFits(t: Tcp, left: seq<Byte>, n: nat)
    requires Ranges(t) && !t.closed && n == |Put(t, left)| > 0
    ensures Minus((t.nxt + n) % TcpSender.WORD, t.una) == Minus(t.nxt, t.una) + n <= Window(t)
    ensures n == |left| || n == MSS || Minus(t.nxt, t.una) + n == Window(t)
  {
    Further(t.nxt, t.una, n);
  }

  lemma Further(x: Word, y: Word, n: nat)
    requires Minus(x, y) + n < HALF
    ensures Minus((x + n) % TcpSender.WORD, y) == Minus(x, y) + n
  {
    var d, q, p := Minus(x, y), (x - y) / TcpSender.WORD, (x + n) / TcpSender.WORD;
    assert x - y == d + TcpSender.WORD * q;
    assert (x + n) % TcpSender.WORD == x + n - TcpSender.WORD * p;
    MinusIs((x + n) % TcpSender.WORD, y, d + n, q - p);
  }

  lemma MinusIs(x: Word, y: Word, d: Word, k: int)
    requires x - y == d + TcpSender.WORD * k
    ensures Minus(x, y) == d
  {
    ModShift(d, k);
  }

  /**
   On every trace, whatever the peer acknowledges: a segment goes out exactly when something is left and
   the window is not full; what is then in flight fits the window; and no more would have fitted, unless
   the segment is full or was the last.
   */
  lemma WindowHeld(cs: seq<Conn>, es: seq<Event>, k: nat)
    requires Trace(cs, es) && Ranges(cs[0].t) && k < |es| && es[k].Data? && !cs[k].t.closed
    ensures var (t, u, left) := (cs[k].t, cs[k + 1].t, es[k].left);
            && (u.nxt == t.nxt <==> left == [] || Minus(t.nxt, t.una) >= Window(t))
            && (u.nxt == t.nxt ==> u == t)
            && (u.nxt != t.nxt ==>
                  && u.una == t.una && Minus(u.nxt, u.una) <= Window(t)
                  && var n := Minus(u.nxt, t.nxt);
                     0 < n <= |left| && n <= MSS && (n == |left| || n == MSS || Minus(u.nxt, u.una) == Window(t)))
  {
    TraceRanges(cs, es, k);
    assert Moves(cs, es, k);
    var t, n := cs[k].t, |Put(cs[k].t, es[k].left)|;
    if n > 0 {
      ChunkFits(t, es[k].left, n);
      MinusSum(t.nxt, n);
    }
  }

  lemma MinusSum(x: Word, n: nat)
    requires n < TcpSender.WORD
    ensures Minus((x + n) % TcpSender.WORD, x) == n
  {
    WrapDifference(x + n, x);
  }

  /** With an honest peer the same bound holds of the real positions. */
  lemma FlightHeld(cs: seq<Conn>, es: seq<Event>, k: nat)
    requires Run(cs, es) && k < |es| && es[k].Data? && cs[k + 1] != cs[k]
    ensures cs[k + 1].f.nxt - cs[k + 1].f.una <= cs[k].t.cwnd
  {
    RunKeeps(cs, es, k);
    assert Moves(cs, es, k);
    RoomIs(cs[k].t, cs[k].f);
  }

  // ---------------------------------------------------------------- giving up

  /** Whether event `e` takes an acknowledged segment off the ring. */
  predicate Retires(c: Conn, e: Event) {
    e.AckTo? && News(c.t, e.ack) && Covered(c.f.segs, c.f.una + Minus(e.ack, c.t.una)) > 0
  }

  predicate Retransmits(c: Conn, e: Event) { e.Clock? && Resends(c.t, e.now) }

  /** Retransmissions among the first `k` events. */
  ghost function Resent(cs: seq<Conn>, es: seq<Event>, k: nat): (n: nat)
    requires k <= |es| <= |cs|
  {
    if k == 0 then 0 else Resent(cs, es, k - 1) + (if Retransmits(cs[k - 1], es[k - 1]) then 1 else 0)
  }

  lemma AckRetries(c: Conn, ack: Word, now: Word)
    requires Inv(c) && Acceptable(c.t, ack) && !Retires(c, AckTo(ack, now))
    ensures var r := Ack(c.t, ack, now); r.retries == c.t.retries && r.count == c.t.count && r.closed == c.t.closed
  {
    if News(c.t, ack) {
      var a := AckPosition(c, ack);
      assert Near(c.f.segs, a);
      RetireAligned(c.t.(una := ack), c.f.segs, a);
    }
  }

  /** Without a retirement the retry count follows the retransmissions, once something is queued. */
  lemma StepRetries(c: Conn, e: Event)
    requires Inv(c) && (e.AckTo? ==> Acceptable(c.t, e.ack)) && !Retires(c, e) && !c.t.closed
    ensures Step(c, e).t.retries == c.t.retries + (if Retransmits(c, e) then 1 else 0)
  {
    match e {
      case AckTo(ack, now) => AckRetries(c, ack, now);
      case Data(_, _) =>
      case Clock(_) =>
    }
  }

  /** After an abort nothing is sent again. */
  lemma ClosedQuiet(c: Conn, e: Event)
    requires Inv(c) && c.t.closed
    ensures Step(c, e).t.closed && !Retransmits(c, e)
  {
    if e.AckTo? {
      RetireRanges(c.t.(una := e.ack), e.ack);
    }
  }

  /** At most five retransmissions occur without retiring a segment. */
  lemma {:induction false} FiveTries(cs: seq<Conn>, es: seq<Event>, k: nat)
    requires Run(cs, es) && k <= |es|
    requires forall j | 0 <= j < k :: !Retires(cs[j], es[j])
    ensures cs[k].t.closed || cs[k].t.retries == cs[0].t.retries + Resent(cs, es, k)
    ensures Resent(cs, es, k) + cs[0].t.retries <= RETRIES
  {
    RunKeeps(cs, es, k);
    if k > 0 {
      FiveTries(cs, es, k - 1);
      RunKeeps(cs, es, k - 1);
      assert Moves(cs, es, k - 1);
      if cs[k - 1].t.closed {
        ClosedQuiet(cs[k - 1], es[k - 1]);
      } else {
        StepRetries(cs[k - 1], es[k - 1]);
      }
    }
  }

  // ---------------------------------------------------------------- what is sent again

  /** Segments put on the wire for the first time by the first `k` events. */
  ghost function Log(cs: seq<Conn>, es: seq<Event>, k: nat): (l: set<Seg>)
    requires k <= |es| <= |cs|
  {
    if k == 0 then {}
    else
      Log(cs, es, k - 1)
      + if es[k - 1].Data? then
          var b := Put(cs[k - 1].t, es[k - 1].left); {Seg(cs[k - 1].f.nxt, cs[k - 1].f.nxt + |b|, b)}
        else {}
  }

  lemma {:induction false} SegsSent(cs: seq<Conn>, es: seq<Event>, k: nat, j: nat)
    requires Trace(cs, es) && k <= |es| && j < |cs[k].f.segs|
    ensures cs[k].f.segs[j] in Log(cs, es, k) || cs[k].f.segs[j] in cs[0].f.segs
  {
    if k > 0 {
      assert Moves(cs, es, k - 1);
      var i := Origin(cs[k - 1], es[k - 1], j);
      if i.Some? {
        SegsSent(cs, es, k - 1, i.value);
      }
    }
  }

  /** Where segment `j` was before event `e`; nowhere when the event sent it. */
  lemma Origin(c: Conn, e: Event, j: nat) returns (i: Option<nat>)
    requires Shape(c.t) && j < |Step(c, e).f.segs|
    ensures i.Some? ==> i.value < |c.f.segs| && c.f.segs[i.value] == Step(c, e).f.segs[j]
    ensures i.None? ==> e.Data? && var b := Put(c.t, e.left); Step(c, e).f.segs[j] == Seg(c.f.nxt, c.f.nxt + |b|, b)
  {
    match e
    case Data(_, _) => i := if j < |c.f.segs| then Some(j) else None;
    case AckTo(ack, _) => i := Some(if News(c.t, ack) then j + Covered(c.f.segs, c.f.una + Minus(ack, c.t.una)) else j);
    case Clock(_) => i := Some(j);
  }

  lemma HeadOldest(t: Tcp, f: Flight)
    requires Tracks(t, f) && t.count > 0
    ensures |f.segs| > 0 && Same(t.ring[t.head], f.segs[0]) && f.segs[0].end > f.una
  {
    assert Same(t.ring[(t.head + 0) % TXQ_MAX], f.segs[0]);
  }

  /** A retransmission repeats, byte for byte and position for position, the oldest segment still unacknowledged. */
  lemma ResendsOldest(cs: seq<Conn>, es: seq<Event>, k: nat)
    requires Run(cs, es) && k < |es| && Retransmits(cs[k], es[k])
    ensures var c := cs[k];
            && Shape(c.t) && |c.f.segs| > 0 && Same(c.t.ring[c.t.head], c.f.segs[0]) && c.f.segs[0].end > c.f.una
            && (c.f.segs[0] in Log(cs, es, k) || c.f.segs[0] in cs[0].f.segs)
  {
    RunKeeps(cs, es, k);
    HeadOldest(cs[k].t, cs[k].f);
    SegsSent(cs, es, k, 0);
  }

  // ---------------------------------------------------------------- what goes on the wire

  /** A segment handed to the wire. */
  datatype Out = Out(at: Word, bytes: seq<Byte>)

  /** The segments the first `k` events send, without the retransmissions. */
  ghost function Wire(cs: seq<Conn>, es: seq<Event>, k: nat): (os: seq<Out>)
    requires k <= |es| <= |cs|
  {
    if k == 0 then []
    else if es[k - 1].Data? && Put(cs[k - 1].t, es[k - 1].left) != [] then
      Wire(cs, es, k - 1) + [Out(cs[k - 1].t.nxt, Put(cs[k - 1].t, es[k - 1].left))]
    else Wire(cs, es, k - 1)
  }

  /** All bytes of the segments, in order. */
  function Stream(os: seq<Out>): (b: seq<Byte>) {
    if os == [] then [] else Stream(os[..|os| - 1]) + os[|os| - 1].bytes
  }

  lemma StreamMore(os: seq<Out>, o: Out)
    ensures Stream(os + [o]) == Stream(os) + o.bytes
  {
    assert (os + [o])[..|os|] == os;
  }

  /** Segments of one to MSS bytes follow each other without gaps. */
  predicate Gapless(os: seq<Out>, from: Word, to: Word) {
    && (forall k | 0 <= k < |os| :: 0 < |os[k].bytes| <= MSS)
    && (forall k | 0 <= k < |os| - 1 :: os[k + 1].at == (os[k].at + |os[k].bytes|) % TcpSender.WORD)
    && (if os == [] then to == from else os[0].at == from && to == (os[|os| - 1].at + |os[|os| - 1].bytes|) % TcpSender.WORD)
  }

  lemma GaplessMore(os: seq<Out>, from: Word, o: Out)
    requires Gapless(os, from, o.at) && 0 < |o.bytes| <= MSS
    ensures Gapless(os + [o], from, (o.at + |o.bytes|) % TcpSender.WORD)
  {
  }

  /** On every trace what is sent is gapless from the first `nxt` to the last, retransmissions apart. */
  lemma {:induction false} WireGapless(cs: seq<Conn>, es: seq<Event>, k: nat)
    requires Trace(cs, es) && k <= |es|
    ensures Gapless(Wire(cs, es, k), cs[0].t.nxt, cs[k].t.nxt)
  {
    if k > 0 {
      WireGapless(cs, es, k - 1);
      var c, e := cs[k - 1], es[k - 1];
      assert Moves(cs, es, k - 1);
      StepNxt(c, e);
      if e.Data? && Put(c.t, e.left) != [] {
        GaplessMore(Wire(cs, es, k - 1), cs[0].t.nxt, Out(c.t.nxt, Put(c.t, e.left)));
      }
    }
  }

  /** Only sending moves `nxt`. */
  lemma StepNxt(c: Conn, e: Event)
    requires Shape(c.t)
    ensures Step(c, e).t.nxt == if e.Data? then (c.t.nxt + |Put(c.t, e.left)|) % TcpSender.WORD else c.t.nxt
    ensures e.Data? ==> |Put(c.t, e.left)| <= MSS
  {
    if e.AckTo? && News(c.t, e.ack) {
      RetireEnds(c.t.(una := e.ack), e.ack);
    }
  }

  /** The wire of a longer trace begins with that of a shorter one. */
  lemma {:induction false} WirePrefix(cs: seq<Conn>, es: seq<Event>, ds: seq<Conn>, fs: seq<Event>, k: nat)
    requires k <= |es| <= |cs| && |es| <= |fs| <= |ds|
    requires forall j | 0 <= j < k :: ds[j] == cs[j] && fs[j] == es[j]
    ensures Wire(ds, fs, k) == Wire(cs, es, k)
  {
    if k > 0 {
      WirePrefix(cs, es, ds, fs, k - 1);
    }
  }

  // ---------------------------------------------------------------- acknowledgements of things never sent

  /** Any acknowledgement keeps the accounting true exactly when it is old or of something sent; otherwise no room is left. */
  lemma AckIff(t: Tcp, f: Flight, ack: Word, now: Word)
    requires Tracks(t, f)
    ensures (exists g :: Tracks(Ack(t, ack, now), g)) <==> Acceptable(t, ack)
    ensures !Acceptable(t, ack) && Ranges(t) ==> Room(Ack(t, ack, now)) == 0
  {
    var r := Ack(t, ack, now);
    if Acceptable(t, ack) {
      if News(t, ack) {
        var a := AckPosition(Conn(t, f), ack);
        AckTracks(t, f, a, now);
      } else {
        assert Tracks(r, f);
      }
    } else {
      AckEnds(t, ack, now);
      Behind(t.nxt, t.una, ack);
      if Ranges(t) {
        AckRanges(t, ack, now);
      }
      forall g ensures !Tracks(r, g) {
        if Tracks(r, g) {
          WrapOrder(g.nxt, g.una);
        }
      }
    }
  }

  /** Once `una` has passed `nxt`, the flight looks longer than any window. */
  lemma Behind(nxt: Word, una: Word, ack: Word)
    requires Minus(nxt, una) < Minus(ack, una) < HALF
    ensures Minus(nxt, ack) > HALF
  {
    var d, e := Minus(nxt, una), Minus(ack, una);
    var p, q := (nxt - una) / TcpSender.WORD, (ack - una) / TcpSender.WORD;
    assert nxt - una == d + TcpSender.WORD * p && ack - una == e + TcpSender.WORD * q;
    MinusIs(nxt, ack, TcpSender.WORD + d - e, p - q - 1);
  }

  lemma AckEnds(t: Tcp, ack: Word, now: Word)
    requires Shape(t) && Minus(ack, t.una) != 0 && !Before(ack, t.una)
    ensures Ack(t, ack, now).una == ack && Ack(t, ack, now).nxt == t.nxt
  {
    RetireEnds(t.(una := ack), ack);
  }

  lemma {:induction false} RetireEnds(t: Tcp, ack: Word)
    requires Shape(t)
    ensures Retire(t, ack).una == t.una && Retire(t, ack).nxt == t.nxt
    decreases t.count
  {
    if t.count > 0 && !Before(ack, t.ring[t.head].end) {
      RetireEnds(t.(head := (t.head + 1) % TXQ_MAX, count := t.count - 1, retries := 0), ack);
    }
  }

  /** The distance from `una` to `nxt` is beyond every window. */
  predicate Blocked(t: Tcp) { Ranges(t) && Minus(t.nxt, t.una) > HALF }

  /**
   Such an acknowledgement blocks the connection for good as far as an honest peer is concerned: while no
   acknowledgement passes `una` again, nothing is sent, whatever is asked for and however long it takes.
   */
  lemma {:induction false} BlockedStays(cs: seq<Conn>, es: seq<Event>, k: nat)
    requires Trace(cs, es) && Blocked(cs[0].t) && k < |cs|
    requires forall j | 0 <= j < k && es[j].AckTo? :: !News(cs[0].t, es[j].ack)
    ensures Blocked(cs[k].t) && cs[k].t.nxt == cs[0].t.nxt && cs[k].t.una == cs[0].t.una && Room(cs[k].t) == 0
  {
    if k > 0 {
      BlockedStays(cs, es, k - 1);
      assert Moves(cs, es, k - 1);
    }
  }

  /** Acknowledgements of what was sent are old to a blocked connection: they do not free it. */
  lemma HonestIsOld(t: Tcp, f: Flight, ack: Word, now: Word, later: Word)
    requires Tracks(t, f) && !Acceptable(t, ack) && Acceptable(t, later) && Minus(later, t.una) < HALF
    ensures !News(Ack(t, ack, now), later)
  {
    AckEnds(t, ack, now);
    if later != ack {
      Behind(later, t.una, ack);
    }
  }

  /** Just after connecting, an acknowledgement of one position too many is accepted and blocks all sending. */
  lemma AckBeyond(isn: Word, t: Tcp, ack: Word, now: Word)
    requires Shape(t) && ack == (isn + 2) % TcpSender.WORD
    ensures var c := Connected(isn, t, now);
            && Inv(c) && c.f.nxt == isn + 1 && Ack(c.t, ack, now).una == ack && Blocked(Ack(c.t, ack, now))
            && forall g :: !Tracks(Ack(c.t, ack, now), g)
  {
    ConnectedInv(isn, t, now);
    var c := Connected(isn, t, now);
    MinusSum(isn, 2);
    MinusSum(isn, 1);
    AckIff(c.t, c.f, ack, now);
    AckEnds(c.t, ack, now);
    AckRanges(c.t, ack, now);
    Behind(c.t.nxt, c.t.una, ack);
  }
}
