/**
 The congestion window and the retransmission timer over runs of the TCP sender (`src/net.c`): slow
 start, congestion avoidance, what a time-out does to the window, and exponential backoff.
 */
module TcpWindow {
  import opened Sectors
  import opened TcpSender
  import opened TcpRuns

  /** The acknowledgement of event `k` is news. */
  ghost predicate Advances(cs: seq<Conn>, es: seq<Event>, k: nat) {
    k < |es| && k < |cs| && es[k].AckTo? && News(cs[k].t, es[k].ack)
  }

  /** How many acknowledgements between states `a` and `b` are. */
  ghost function Advanced(cs: seq<Conn>, es: seq<Event>, a: nat, b: nat): (n: nat)
    requires a <= b
    decreases b
  {
    if a == b then 0 else Advanced(cs, es, a, b - 1) + if Advances(cs, es, b - 1) then 1 else 0
  }

  /** Event `k` is a look at the timer that acts. */
  ghost predicate Fires(cs: seq<Conn>, es: seq<Event>, k: nat) {
    k < |es| && k < |cs| && es[k].Clock? && Expired(cs[k].t, es[k].now)
  }

  ghost predicate NoTimeout(cs: seq<Conn>, es: seq<Event>, a: nat, b: nat) { forall k | a <= k < b :: !Fires(cs, es, k) }

  /** Without a time-out the window changes with news and with nothing else, and the threshold not at all. */
  lemma StepWindow(cs: seq<Conn>, es: seq<Event>, k: nat)
    requires Trace(cs, es) && k < |es| && !Fires(cs, es, k)
    ensures cs[k + 1].t.ssthresh == cs[k].t.ssthresh
    ensures cs[k + 1].t.cwnd == if Advances(cs, es, k) then Grow(cs[k].t.cwnd, cs[k].t.ssthresh) else cs[k].t.cwnd
  {
    assert Moves(cs, es, k);
    match es[k]
    case Data(left, now) =>
    case AckTo(ack, now) =>
      if News(cs[k].t, ack) {
        RetireElse(cs[k].t.(una := ack), ack);
      }
    case Clock(now) =>
  }

  lemma {:induction false} RetireElse(t: Tcp, ack: Word)
    requires Shape(t)
    ensures SameElse(Retire(t, ack), t)
    decreases t.count
  {
    if t.count > 0 && !Before(ack, t.ring[t.head].end) {
      RetireElse(t.(head := (t.head + 1) % TXQ_MAX, count := t.count - 1, retries := 0), ack);
    }
  }

  // ---------------------------------------------------------------- slow start

  function Capped(n: nat): (r: nat) { if n > CWND_MAX then CWND_MAX else n }

  /** Below the threshold every acknowledgement of something new adds one segment to the window. */
  lemma {:induction false} SlowStart(cs: seq<Conn>, es: seq<Event>, a: nat, b: nat)
    requires Trace(cs, es) && a <= b <= |es| && NoTimeout(cs, es, a, b) && cs[a].t.ssthresh <= CWND_MAX
    requires Advanced(cs, es, a, b) > 0 ==> cs[a].t.cwnd + MSS * (Advanced(cs, es, a, b) - 1) < cs[a].t.ssthresh
    requires cs[a].t.cwnd <= CWND_MAX
    ensures cs[b].t.cwnd == Capped(cs[a].t.cwnd + MSS * Advanced(cs, es, a, b)) && cs[b].t.ssthresh == cs[a].t.ssthresh
    decreases b
  {
    if a < b {
      SlowStart(cs, es, a, b - 1);
      assert !Fires(cs, es, b - 1);
      StepWindow(cs, es, b - 1);
    }
  }

  // ---------------------------------------------------------------- congestion avoidance

  lemma ShareFalls(c: nat, d: nat)
    requires 0 < c <= d
    ensures Share(d) <= Share(c)
  {
    var q := MSS * MSS / d;
    assert q * d <= MSS * MSS;
    Scaled(q, c, d);
    Quotient(q, c);
  }

  lemma Scaled(q: nat, c: nat, d: nat)
    requires c <= d
    ensures q * c <= q * d
  {
  }

  lemma Quotient(q: nat, c: nat)
    requires c > 0 && q * c <= MSS * MSS
    ensures q <= MSS * MSS / c
  {
    var p := MSS * MSS / c;
    assert MSS * MSS < (p + 1) * c;
    if q > p {
      Scaled(c, p + 1, q);
    }
  }

  /** Above it, each adds MSS * MSS / cwnd: the window grows by at most that share of its first size per acknowledgement. */
  lemma {:induction false} Avoidance(cs: seq<Conn>, es: seq<Event>, a: nat, b: nat)
    requires Trace(cs, es) && a <= b <= |es| && NoTimeout(cs, es, a, b)
    requires MSS <= cs[a].t.cwnd <= CWND_MAX && cs[a].t.ssthresh <= cs[a].t.cwnd
    ensures cs[b].t.ssthresh == cs[a].t.ssthresh && cs[a].t.cwnd <= cs[b].t.cwnd <= CWND_MAX
    ensures cs[b].t.cwnd <= cs[a].t.cwnd + Share(cs[a].t.cwnd) * Advanced(cs, es, a, b)
    ensures cs[b].t.cwnd == CWND_MAX || cs[b].t.cwnd >= cs[a].t.cwnd + Share(cs[b].t.cwnd) * Advanced(cs, es, a, b)
    decreases b
  {
    if a < b {
      Avoidance(cs, es, a, b - 1);
      assert !Fires(cs, es, b - 1);
      StepWindow(cs, es, b - 1);
      var (c, n) := (cs[b - 1].t.cwnd, Advanced(cs, es, a, b - 1));
      if Advances(cs, es, b - 1) {
        AvoidanceStep(cs[a].t.cwnd, c, n, cs[b].t.cwnd);
      }
    }
  }

  lemma AvoidanceStep(w: nat, c: nat, n: nat, d: nat)
    requires MSS <= w <= c <= CWND_MAX && c <= w + Share(w) * n && (c == CWND_MAX || c >= w + Share(c) * n)
    requires d == Capped(c + Share(c))
    ensures d <= w + Share(w) * (n + 1) && (d == CWND_MAX || d >= w + Share(d) * (n + 1))
  {
    ShareFalls(w, c);
    ShareFalls(c, d);
    Shares(w, c, d, n, Share(w), Share(c), Share(d));
  }

  lemma Shares(w: nat, c: nat, d: nat, n: nat, x: nat, y: nat, z: nat)
    requires z <= y <= x && c <= w + x * n && (c == CWND_MAX || c >= w + y * n) && d == Capped(c + y)
    ensures d <= w + x * (n + 1) && (d == CWND_MAX || d >= w + z * (n + 1))
  {
    assert x * (n + 1) == x * n + x && z * (n + 1) == z * n + z;
    Scaled(n, z, y);
  }

  /** A window's worth of acknowledgements adds at most one segment. */
  lemma OnePerWindow(cs: seq<Conn>, es: seq<Event>, a: nat, b: nat)
    requires Trace(cs, es) && a <= b <= |es| && NoTimeout(cs, es, a, b)
    requires MSS <= cs[a].t.cwnd <= CWND_MAX && cs[a].t.ssthresh <= cs[a].t.cwnd
    requires Advanced(cs, es, a, b) * MSS <= cs[a].t.cwnd
    ensures cs[b].t.cwnd <= cs[a].t.cwnd + MSS
  {
    Avoidance(cs, es, a, b);
    var (w, n) := (cs[a].t.cwnd, Advanced(cs, es, a, b));
    assert Share(w) * w <= MSS * MSS;
    OneSegment(Share(w), w, n);
  }

  lemma OneSegment(q: nat, w: nat, n: nat)
    requires q * w <= MSS * MSS && n * MSS <= w
    ensures q * n <= MSS
  {
    Scaled(q, n * MSS, w);
    assert q * (n * MSS) == (q * n) * MSS;
  }

  // ---------------------------------------------------------------- time-outs

  /** A time-out sends one segment at a time again, and halves the window for the threshold if it was more than two segments. */
  lemma TimeoutWindow(cs: seq<Conn>, es: seq<Event>, k: nat)
    requires Trace(cs, es) && k < |es| && Fires(cs, es, k) && cs[k].t.retries < RETRIES
    ensures cs[k + 1].t.cwnd == MSS && cs[k + 1].t.retries == cs[k].t.retries + 1
    ensures cs[k + 1].t.ssthresh == if cs[k].t.cwnd > 2 * MSS then cs[k].t.cwnd / 2 else 2 * MSS
    ensures cs[k + 1].t.deadline == (es[k].now + cs[k + 1].t.rto) % TcpSender.WORD
  {
    assert Moves(cs, es, k);
  }

  /**
   Half the window but at least two segments, as section 3.1 of RFC 5681 asks: the threshold is that if and only if
   the window was at most two segments or at least four.
   */
  lemma ThresholdIff(t: Tcp, now: Word)
    requires Shape(t) && Resends(t, now)
    ensures Timeout(t, now).ssthresh == (if t.cwnd / 2 > 2 * MSS then t.cwnd / 2 else 2 * MSS) <==> t.cwnd <= 2 * MSS || t.cwnd >= 4 * MSS
  {
  }

  const SEGMENT: seq<Byte> := seq(MSS, _ => 0)

  /** With everything acknowledged a full segment can be sent, and is kept until it is acknowledged. */
  lemma SendsOne(c: Conn, now: Word) returns (d: Conn)
    requires Inv(c) && c.t.una == c.t.nxt && c.t.cwnd >= MSS && !c.t.closed
    ensures d == Step(c, Data(SEGMENT, now)) && Inv(d) && d.t.una == c.t.una && d.t.nxt == (c.t.una + MSS) % TcpSender.WORD
    ensures d.t.cwnd == c.t.cwnd && d.t.ssthresh == c.t.ssthresh && !d.t.closed && d.t.count > 0 && d.t.retries == 0
  {
    NothingQueued(c);
    assert Minus(c.t.nxt, c.t.una) == 0;
    assert Put(c.t, SEGMENT) == SEGMENT;
    StepKeeps(c, Data(SEGMENT, now));
    d := Step(c, Data(SEGMENT, now));
  }

  lemma SomeFlight(f: Flight, k: nat)
    requires Ordered(f) && k < |f.segs|
    ensures f.una < f.nxt
  {
    assert f.una < f.segs[k].end <= f.nxt;
  }

  /** With everything acknowledged the queue is empty. */
  lemma NothingQueued(c: Conn)
    requires Tracks(c.t, c.f) && c.t.una == c.t.nxt
    ensures c.t.count == 0
  {
    WrapOrder(c.f.nxt, c.f.una);
    if c.t.count > 0 {
      SomeFlight(c.f, 0);
    }
  }

  /** An acknowledgement of everything sent. */
  lemma AckedAll(c: Conn, now: Word) returns (d: Conn)
    requires Inv(c) && !c.t.closed && News(c.t, c.t.nxt)
    ensures d == Step(c, AckTo(c.t.nxt, now)) && Inv(d) && Acceptable(c.t, c.t.nxt)
    ensures d.t.una == d.t.nxt && d.t.cwnd == Grow(c.t.cwnd, c.t.ssthresh) && d.t.ssthresh == c.t.ssthresh && !d.t.closed
  {
    AckFields(c.t, c.t.nxt, now);
    d := Step(c, AckTo(c.t.nxt, now));
    AckKeeps(c, c.t.nxt, now);
  }

  lemma AckFields(t: Tcp, ack: Word, now: Word)
    requires Shape(t) && News(t, ack)
    ensures var u := Ack(t, ack, now);
            u.una == ack && u.nxt == t.nxt && u.cwnd == Grow(t.cwnd, t.ssthresh) && u.ssthresh == t.ssthresh && u.closed == t.closed
  {
    RetireElse(t.(una := ack), ack);
  }

  lemma IsNews(una: Word, n: nat)
    requires 0 < n <= MSS
    ensures Minus((una + n) % TcpSender.WORD, una) == n
  {
  }

  /** The segment sent next is lost, and its timer runs out. */
  lemma LostSegment(c: Conn, now: Word) returns (later: Word, d: Conn)
    requires Inv(c) && c.t.una == c.t.nxt && c.t.cwnd == 3 * MSS && !c.t.closed
    ensures d == Step(c, Data(SEGMENT, now)) && Inv(d) && d.t.cwnd == 3 * MSS
    ensures Resends(d.t, later) && 2 * Timeout(d.t, later).ssthresh == 3 * MSS
  {
    d := SendsOne(c, now);
    later := d.t.deadline;
  }

  lemma TwoTurns(isn: Word, t: Tcp, now: Word) returns (c0: Conn, c1: Conn, c2: Conn, c3: Conn)
    requires Shape(t)
    ensures c0 == Connected(isn, t, now) && Inv(c0)
    ensures c1 == Step(c0, AckTo(c0.t.nxt, now)) && Shape(c1.t) && Acceptable(c0.t, c0.t.nxt)
    ensures c2 == Step(c1, Data(SEGMENT, now)) && Shape(c2.t) && Acceptable(c2.t, c2.t.nxt) && c3 == Step(c2, AckTo(c2.t.nxt, now))
    ensures Inv(c3) && c3.t.una == c3.t.nxt && c3.t.cwnd == 3 * MSS && !c3.t.closed
  {
    ConnectedInv(isn, t, now);
    c0 := Connected(isn, t, now);
    IsNews(isn, 1);
    c1 := AckedAll(c0, now);
    c2 := SendsOne(c1, now);
    IsNews(c1.t.una, MSS);
    c3 := AckedAll(c2, now);
  }

  predicate Follows(c: Conn, e: Event, d: Conn) { Shape(c.t) && d == Step(c, e) && (e.AckTo? ==> Acceptable(c.t, e.ack)) }

  /** Five steps make a run. */
  lemma FiveSteps(cs: seq<Conn>, es: seq<Event>)
    requires |es| == 5 && |cs| == 6 && Inv(cs[0]) && Shape(cs[5].t)
    requires Follows(cs[0], es[0], cs[1]) && Follows(cs[1], es[1], cs[2]) && Follows(cs[2], es[2], cs[3])
    requires Follows(cs[3], es[3], cs[4]) && Follows(cs[4], es[4], cs[5])
    ensures Run(cs, es)
  {
    forall k | 0 <= k < |es| ensures Shape(cs[k].t) && Moves(cs, es, k) && (es[k].AckTo? ==> Acceptable(cs[k].t, es[k].ack)) {
      assert k == 0 || k == 1 || k == 2 || k == 3 || k == 4;
    }
  }

  lemma Listed(c0: Conn, e0: Event, c1: Conn, e1: Event, c2: Conn, e2: Event, c3: Conn, c4: Conn, e4: Event, c5: Conn)
    returns (cs: seq<Conn>, es: seq<Event>)
    ensures |cs| == 6 && cs[0] == c0 && cs[1] == c1 && cs[2] == c2 && cs[3] == c3 && cs[4] == c4 && cs[5] == c5
    ensures |es| == 5 && es[0] == e0 && es[1] == e1 && es[2] == e2 && es[3] == e1 && es[4] == e4
  {
    cs, es := [c0, c1, c2, c3, c4, c5], [e0, e1, e2, e1, e4];
  }

  /**
   A new connection: the SYN and one segment are acknowledged, the next segment is lost. The threshold
   falls to one and a half segments.
   */
  lemma ThresholdLow(isn: Word, t: Tcp, now: Word) returns (cs: seq<Conn>, es: seq<Event>)
    requires Shape(t)
    ensures Run(cs, es) && |es| == 5 && cs[0] == Connected(isn, t, now)
    ensures Fires(cs, es, 4) && cs[4].t.cwnd == 3 * MSS && 2 * cs[5].t.ssthresh == 3 * MSS
  {
    var c0, c1, c2, c3 := TwoTurns(isn, t, now);
    var later, c4 := LostSegment(c3, now);
    cs, es := Listed(c0, AckTo(c0.t.nxt, now), c1, Data(SEGMENT, now), c2, AckTo(c2.t.nxt, now), c3, c4, Clock(later), Step(c4, Clock(later)));
    FiveSteps(cs, es);
  }

  /** How often the timer acted between states `a` and `b`. */
  ghost function Fired(cs: seq<Conn>, es: seq<Event>, a: nat, b: nat): (n: nat)
    requires a <= b
    decreases b
  {
    if a == b then 0 else Fired(cs, es, a, b - 1) + if Fires(cs, es, b - 1) then 1 else 0
  }

  /** One second, doubled `n` times, at most eight. */
  function Backoff(n: nat): (rto: nat)
    ensures RTO_MIN <= rto <= RTO_MAX
  {
    if n == 0 then RTO_MIN else if Backoff(n - 1) * 2 <= RTO_MAX then Backoff(n - 1) * 2 else RTO_MAX
  }

  /** Something stays queued and open, and nothing new is acknowledged, between states `a` and `b`. */
  ghost predicate Stalled(cs: seq<Conn>, es: seq<Event>, a: nat, b: nat) {
    b < |cs| && (forall k | a <= k <= b :: Queued(cs, k)) && forall k | a <= k < b :: !Advances(cs, es, k)
  }

  ghost predicate Queued(cs: seq<Conn>, k: nat) { k < |cs| && cs[k].t.count > 0 && !cs[k].t.closed }

  lemma StepBackoff(cs: seq<Conn>, es: seq<Event>, k: nat, n: nat)
    requires Trace(cs, es) && k < |es| && Queued(cs, k) && Queued(cs, k + 1) && !Advances(cs, es, k) && cs[k].t.rto == Backoff(n)
    ensures cs[k + 1].t.rto == Backoff(n + if Fires(cs, es, k) then 1 else 0)
  {
    assert Moves(cs, es, k);
  }

  /** The interval after `n` time-outs in a row: 1, 2, 4, 8, 8 seconds. */
  lemma {:induction false} BacksOff(cs: seq<Conn>, es: seq<Event>, a: nat, b: nat)
    requires Trace(cs, es) && a <= b <= |es| && Stalled(cs, es, a, b) && cs[a].t.rto == RTO_MIN
    ensures cs[b].t.rto == Backoff(Fired(cs, es, a, b))
    decreases b
  {
    if a < b {
      BacksOff(cs, es, a, b - 1);
      assert Queued(cs, b - 1) && Queued(cs, b) && !Advances(cs, es, b - 1);
      StepBackoff(cs, es, b - 1, Fired(cs, es, a, b - 1));
    }
  }

  // ---------------------------------------------------------------- the timer

  /** The timer was set at `now` and has something to wait for. */
  predicate Armed(t: Tcp, now: Word) { t.count > 0 && !t.closed && t.deadline == (now + t.rto) % TcpSender.WORD }

  /** A timer set at `now` acts from `rto` ticks later on and not before, across the wrap of the clock. */
  lemma TimerWaits(t: Tcp, now: Word, d: nat)
    requires Armed(t, now) && t.rto <= RTO_MAX && d < HALF
    ensures Expired(t, (now + d) % TcpSender.WORD) <==> d >= t.rto
  {
    WrapOrder(now + d, now + t.rto);
  }

  /** Event `k` puts the first segment into an empty queue, retires some of the queue, or sends its head again. */
  ghost predicate Sets(cs: seq<Conn>, es: seq<Event>, k: nat)
    requires k < |es| && |cs| == |es| + 1
  {
    match es[k]
    case Data(left, _) => cs[k].t.count == 0 && Put(cs[k].t, left) != []
    case AckTo(ack, _) => News(cs[k].t, ack) && cs[k + 1].t.count > 0
    case Clock(now) => Resends(cs[k].t, now)
  }

  /** Those events, and only those, set the timer; the first two set it to one second. */
  lemma TimerSet(cs: seq<Conn>, es: seq<Event>, k: nat)
    requires Trace(cs, es) && k < |es| && !cs[k].t.closed
    ensures if Sets(cs, es, k) then Armed(cs[k + 1].t, es[k].now) && (!es[k].Clock? ==> cs[k + 1].t.rto == RTO_MIN)
            else cs[k + 1].t.deadline == cs[k].t.deadline && cs[k + 1].t.rto == cs[k].t.rto
  {
    assert Moves(cs, es, k);
    if es[k].AckTo? && News(cs[k].t, es[k].ack) {
      RetireElse(cs[k].t.(una := es[k].ack), es[k].ack);
    }
  }
}
