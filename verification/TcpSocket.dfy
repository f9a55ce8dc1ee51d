/**
 The TCP sender in the form of `src/net.c`: one socket whose ring, window and timer change in place.
 */
module TcpSocket {
  import opened Options
  import opened Sectors
  import opened TcpSender
  import opened TcpRuns

  /** What a poll of the network brings: acknowledgements, then the timer. */
  datatype Poll = Poll(acks: seq<Word>, now: Word)

  const GUARD: nat := 2000

  function PollEvents(p: Poll): (es: seq<Event>) {
    seq(|p.acks|, i requires 0 <= i < |p.acks| => AckTo(p.acks[i], p.now)) + [Clock(p.now)]
  }

  /** The events of the first `g` polls. */
  function Brought(polls: seq<Poll>, g: nat): (es: seq<Event>)
    requires g <= |polls|
  {
    if g == 0 then [] else Brought(polls, g - 1) + PollEvents(polls[g - 1])
  }

  /** The events other than sending. */
  function Outside(es: seq<Event>): (r: seq<Event>) {
    if es == [] then []
    else Outside(es[..|es| - 1]) + if es[|es| - 1].Data? then [] else [es[|es| - 1]]
  }

  lemma OutsideMore(es: seq<Event>, e: Event)
    ensures Outside(es + [e]) == Outside(es) + if e.Data? then [] else [e]
  {
    assert (es + [e])[..|es|] == es;
  }

  /** Event `k` is the first of a poll. */
  predicate PollStarts(es: seq<Event>, k: nat)
    requires k < |es|
  {
    !es[k].Data? && (k == 0 || !es[k - 1].AckTo?)
  }

  /** tcp_send_data asks for what is left each time, and polls only when the window is full. */
  ghost predicate Follows(cs: seq<Conn>, es: seq<Event>, data: seq<Byte>) {
    |cs| == |es| + 1 && forall k | 0 <= k < |es| :: Due(cs[k].t, es, k, data, |Stream(Wire(cs, es, k))|)
  }

  /** Event `k` is right for a socket in state `t` with `n` bytes of `data` sent. */
  predicate Due(t: Tcp, es: seq<Event>, k: nat, data: seq<Byte>, n: nat)
    requires k < |es|
  {
    && (es[k].Data? ==> n < |data| && es[k].left == data[n..] && Room(t) > 0)
    && (PollStarts(es, k) ==> n < |data| && Room(t) == 0)
  }

  /** The loop so far: a trace of this socket whose segments carry the first `sent` bytes. */
  ghost predicate Played(cs: seq<Conn>, es: seq<Event>, data: seq<Byte>, sent: nat, out: seq<Out>) {
    Trace(cs, es) && Follows(cs, es, data) && out == Wire(cs, es, |es|) && sent <= |data| && Stream(out) == data[..sent]
  }

  /** One more event and the state it leads to. */
  ghost predicate Longer(cs: seq<Conn>, es: seq<Event>, ds: seq<Conn>, fs: seq<Event>, e: Event) {
    && |cs| == |es| + 1 && |ds| == |fs| + 1 && |fs| == |es| + 1 && fs[|es|] == e
    && (forall k | 0 <= k < |cs| :: ds[k] == cs[k]) && (forall k | 0 <= k < |es| :: fs[k] == es[k])
  }

  lemma TraceMore(cs: seq<Conn>, es: seq<Event>, ds: seq<Conn>, fs: seq<Event>, e: Event)
    requires Trace(cs, es) && Longer(cs, es, ds, fs, e) && ds[|fs|] == Step(cs[|es|], e)
    ensures Trace(ds, fs)
  {
    ShapesMore(cs, ds);
    forall k | 0 <= k < |fs| ensures Moves(ds, fs, k) {
      if k < |es| {
        MovesSame(cs, es, ds, fs, k);
      }
    }
  }

  lemma ShapesMore(cs: seq<Conn>, ds: seq<Conn>)
    requires |ds| == |cs| + 1 && Shape(ds[|cs|].t) && forall k | 0 <= k < |cs| :: Shape(cs[k].t) && ds[k] == cs[k]
    ensures forall k | 0 <= k < |ds| :: Shape(ds[k].t)
  {
  }

  lemma MovesSame(cs: seq<Conn>, es: seq<Event>, ds: seq<Conn>, fs: seq<Event>, k: nat)
    requires k < |es| && k < |fs| && |cs| == |es| + 1 && |ds| == |fs| + 1 && Shape(cs[k].t) && Moves(cs, es, k)
    requires ds[k] == cs[k] && fs[k] == es[k] && ds[k + 1] == cs[k + 1]
    ensures Moves(ds, fs, k)
  {
  }

  lemma Extend(cs: seq<Conn>, es: seq<Event>, e: Event) returns (ds: seq<Conn>, fs: seq<Event>)
    requires Trace(cs, es)
    ensures Longer(cs, es, ds, fs, e) && ds[|fs|] == Step(cs[|es|], e) && Trace(ds, fs)
    ensures Outside(fs) == Outside(es) + if e.Data? then [] else [e]
  {
    ds, fs := cs + [Step(cs[|es|], e)], es + [e];
    TraceMore(cs, es, ds, fs, e);
    OutsideMore(es, e);
  }

  lemma {:induction false} FollowsMore(cs: seq<Conn>, es: seq<Event>, ds: seq<Conn>, fs: seq<Event>, e: Event, data: seq<Byte>, n: nat)
    requires Follows(cs, es, data) && Longer(cs, es, ds, fs, e)
    requires n == |Stream(Wire(cs, es, |es|))| && Due(cs[|es|].t, fs, |es|, data, n)
    ensures Follows(ds, fs, data) && Wire(ds, fs, |es|) == Wire(cs, es, |es|)
  {
    WirePrefix(cs, es, ds, fs, |es|);
    forall k | 0 <= k < |fs| ensures Due(ds[k].t, fs, k, data, |Stream(Wire(ds, fs, k))|) {
      if k < |es| {
        StillDue(cs, es, ds, fs, e, data, k);
      }
    }
  }

  lemma {:induction false} StillDue(cs: seq<Conn>, es: seq<Event>, ds: seq<Conn>, fs: seq<Event>, e: Event, data: seq<Byte>, k: nat)
    requires Follows(cs, es, data) && Longer(cs, es, ds, fs, e) && k < |es|
    ensures Due(ds[k].t, fs, k, data, |Stream(Wire(ds, fs, k))|)
  {
    WirePrefix(cs, es, ds, fs, k);
    DueSame(cs[k].t, es, fs, k, data, |Stream(Wire(cs, es, k))|);
  }

  lemma {:induction false} DueSame(t: Tcp, es: seq<Event>, fs: seq<Event>, k: nat, data: seq<Byte>, n: nat)
    requires k < |es| && k < |fs| && fs[k] == es[k] && (k > 0 ==> fs[k - 1] == es[k - 1]) && Due(t, es, k, data, n)
    ensures Due(t, fs, k, data, n)
  {
  }

  /** One more event that is not a sending. */
  lemma {:induction false} Waited(cs: seq<Conn>, es: seq<Event>, data: seq<Byte>, sent: nat, out: seq<Out>, e: Event)
    returns (ds: seq<Conn>, fs: seq<Event>)
    requires Played(cs, es, data, sent, out) && !e.Data?
    requires (|es| > 0 && es[|es| - 1].AckTo?) || (sent < |data| && Room(cs[|es|].t) == 0)
    ensures Played(ds, fs, data, sent, out) && ds[0] == cs[0] && ds[|fs|] == Step(cs[|es|], e)
    ensures |fs| == |es| + 1 && fs[|es|] == e && Outside(fs) == Outside(es) + [e]
  {
    ds, fs := Extend(cs, es, e);
    FollowsMore(cs, es, ds, fs, e, data, sent);
  }

  lemma PutIsPrefix(t: Tcp, data: seq<Byte>, sent: nat, b: seq<Byte>)
    requires sent < |data| && b == Put(t, data[sent..])
    ensures sent + |b| <= |data| && data[..sent] + b == data[..sent + |b|]
  {
  }

  /** One more round of sending. */
  lemma {:induction false} Sending(cs: seq<Conn>, es: seq<Event>, data: seq<Byte>, sent: nat, out: seq<Out>, now: Word, b: seq<Byte>)
    returns (ds: seq<Conn>, fs: seq<Event>)
    requires Played(cs, es, data, sent, out) && sent < |data| && Room(cs[|es|].t) > 0
    requires b == Put(cs[|es|].t, data[sent..]) && b != []
    ensures Played(ds, fs, data, sent + |b|, out + [Out(cs[|es|].t.nxt, b)])
    ensures ds[0] == cs[0] && |fs| == |es| + 1 && ds[|fs|] == Step(cs[|es|], Data(data[sent..], now)) && Outside(fs) == Outside(es)
  {
    var e, t := Data(data[sent..], now), cs[|es|].t;
    ds, fs := Extend(cs, es, e);
    FollowsMore(cs, es, ds, fs, e, data, sent);
    SentMore(ds, fs, |es|, e.left, out, data, sent, Out(t.nxt, b));
  }

  lemma {:induction false} SentMore(cs: seq<Conn>, es: seq<Event>, k: nat, left: seq<Byte>, out: seq<Out>, data: seq<Byte>, sent: nat, o: Out)
    requires k < |es| < |cs| && sent < |data| && es[k].Data? && es[k].left == left == data[sent..]
    requires o == Out(cs[k].t.nxt, Put(cs[k].t, left)) && o.bytes != [] && out == Wire(cs, es, k) && Stream(out) == data[..sent]
    ensures Wire(cs, es, k + 1) == out + [o] && sent + |o.bytes| <= |data| && Stream(out + [o]) == data[..sent + |o.bytes|]
  {
    StreamMore(out, o);
    PutIsPrefix(cs[k].t, data, sent, o.bytes);
  }

  class Sock {
    var una: Word
    var nxt: Word
    var cwnd: nat
    var ssthresh: nat
    var rto: nat
    var retries: nat
    var deadline: Word
    const txq: array<Entry>
    var head: nat
    var count: nat
    var closed: bool
    var established: bool

    ghost predicate Valid()
      reads this
    {
      txq.Length == TXQ_MAX && head < TXQ_MAX && count <= TXQ_MAX
    }

    ghost function State(): (t: Tcp)
      requires Valid()
      reads this, txq
      ensures Shape(t)
    {
      Tcp(una, nxt, cwnd, ssthresh, rto, retries, deadline, txq[..], head, count, closed)
    }

    constructor ()
      ensures Valid() && fresh(txq)
    {
      una, nxt, cwnd, ssthresh, rto, retries, deadline := 0, 0, MSS, CWND_MAX, 0, 0, 0;
      txq := new Entry[TXQ_MAX](_ => Entry(0, 0, false, false, []));
      head, count, closed, established := 0, 0, false, false;
    }

    /** tcp_send_seg, the copy kept for retransmission. */
    method SendSeg(at: Word, syn: bool, fin: bool, data: seq<Byte>, now: Word)
      requires Valid()
      modifies this`rto, this`retries, this`deadline, this`count, txq
      ensures Valid() && State() == Keep(old(State()), at, syn, fin, data, now)
    {
      if |data| == 0 && !syn && !fin {
        return;
      }
      if count >= TXQ_MAX {
        return;
      }
      var idx := (head + count) % TXQ_MAX;
      var end := (at + |data| + (if syn then 1 else 0) + (if fin then 1 else 0)) % TcpSender.WORD;
      txq[idx] := Entry(at, end, syn, fin, if |data| > MSS then data[..MSS] else data);
      if count == 0 {
        rto := RTO_MIN;
        retries := 0;
        deadline := (now + rto) % TcpSender.WORD;
      }
      count := count + 1;
    }

    /** tcp_ack. */
    method OnAck(ack: Word, now: Word)
      requires Valid()
      modifies this
      ensures Valid() && established == old(established) && State() == Ack(old(State()), ack, now)
    {
      if Minus(ack, una) == 0 || Before(ack, una) {
        return;
      }
      una := ack;
      RetireAcked(ack);
      if count > 0 {
        rto := RTO_MIN;
        deadline := (now + rto) % TcpSender.WORD;
      }
      cwnd := Grow(cwnd, ssthresh);
    }

    method RetireAcked(ack: Word)
      requires Valid()
      modifies this`head, this`count, this`retries
      ensures Valid() && State() == Retire(old(State()), ack)
    {
      ghost var goal := Retire(State(), ack);
      while count > 0
        invariant Valid() && Retire(State(), ack) == goal
        decreases count
      {
        if Before(ack, txq[head].end) {
          return;
        }
        head := (head + 1) % TXQ_MAX;
        count := count - 1;
        retries := 0;
      }
    }

    /** tcp_timers for this socket; the segment sent again, if any. */
    method OnTimer(now: Word) returns (resent: Option<Entry>)
      requires Valid()
      modifies this
      ensures Valid() && established == old(established) && State() == Timeout(old(State()), now)
      ensures resent == if Resends(old(State()), now) then Some(txq[head]) else None
    {
      if closed || count == 0 || Before(now, deadline) {
        return None;
      }
      if retries >= RETRIES {
        count := 0;
        closed := true;
        return None;
      }
      retries := retries + 1;
      ssthresh := if cwnd > MSS * 2 then cwnd / 2 else MSS * 2;
      cwnd := MSS;
      rto := if rto < RTO_MAX / 2 then rto * 2 else RTO_MAX;
      deadline := (now + rto) % TcpSender.WORD;
      return Some(txq[head]);
    }

    /** net_poll, as far as this socket is concerned. */
    method PollOnce(p: Poll, ghost cs: seq<Conn>, ghost es: seq<Event>, ghost data: seq<Byte>, ghost sent: nat, ghost out: seq<Out>)
      returns (ghost ds: seq<Conn>, ghost fs: seq<Event>)
      requires Valid() && Played(cs, es, data, sent, out) && cs[|es|].t == State() && sent < |data| && Room(State()) == 0
      modifies this
      ensures Valid() && established == old(established) && Played(ds, fs, data, sent, out) && ds[|fs|].t == State()
      ensures ds[0] == cs[0] && Outside(fs) == Outside(es) + PollEvents(p)
    {
      ds, fs := cs, es;
      for i := 0 to |p.acks|
        invariant Valid() && established == old(established) && Played(ds, fs, data, sent, out) && ds[|fs|].t == State()
        invariant ds[0] == cs[0] && Outside(fs) == Outside(es) + PollEvents(p)[..i]
        invariant i == 0 ==> Room(State()) == 0
        invariant i > 0 ==> |fs| > 0 && fs[|fs| - 1].AckTo?
      {
        OnAck(p.acks[i], p.now);
        ds, fs := Waited(ds, fs, data, sent, out, AckTo(p.acks[i], p.now));
        assert PollEvents(p)[..i + 1] == PollEvents(p)[..i] + [AckTo(p.acks[i], p.now)];
      }
      var _ := OnTimer(p.now);
      ds, fs := Waited(ds, fs, data, sent, out, Clock(p.now));
      assert PollEvents(p) == PollEvents(p)[..|p.acks|] + [Clock(p.now)];
    }

    /** One segment of what is left, as much as a segment and the window allow. */
    method SendNext(left: seq<Byte>, inflight: nat, window: nat, now: Word) returns (o: Out)
      requires Valid() && |left| > 0 && inflight < window && !closed
      requires inflight == Minus(nxt, una) && window == (if cwnd == 0 then MSS else cwnd)
      modifies this`nxt, this`rto, this`retries, this`deadline, this`count, txq
      ensures Valid() && State() == SendChunk(old(State()), o.bytes, now)
      ensures o == Out(old(nxt), Put(old(State()), left)) && o.bytes != []
    {
      var chunk := |left|;
      if chunk > MSS {
        chunk := MSS;
      }
      if chunk > window - inflight {
        chunk := window - inflight;
      }
      SendSeg(nxt, false, false, left[..chunk], now);
      o := Out(nxt, left[..chunk]);
      nxt := (nxt + chunk) % TcpSender.WORD;
    }

    /** One round of the loop with room in the window. */
    method SendRound(data: seq<Byte>, sent: nat, inflight: nat, window: nat, now: Word,
                     ghost cs: seq<Conn>, ghost es: seq<Event>, ghost out: seq<Out>)
      returns (o: Out, ghost ds: seq<Conn>, ghost fs: seq<Event>)
      requires Valid() && Played(cs, es, data, sent, out) && cs[|es|].t == State() && sent < |data| && !closed
      requires inflight == Minus(nxt, una) < window == (if cwnd == 0 then MSS else cwnd)
      modifies this`nxt, this`rto, this`retries, this`deadline, this`count, txq
      ensures Valid() && o.bytes != [] && Played(ds, fs, data, sent + |o.bytes|, out + [o]) && ds[|fs|].t == State()
      ensures ds[0] == cs[0] && Outside(fs) == Outside(es)
    {
      o := SendNext(data[sent..], inflight, window, now);
      ds, fs := Sending(cs, es, data, sent, out, now, o.bytes);
    }

    /**
     tcp_send_data: the result and the segments sent; `polls` is what each wait brings and `clock` the time
     of each sending. The states it goes through are a trace of the sender, whatever the polls bring: each
     round asks for what is left, the socket polls only with a full window, and the segments carry the data.
     */
    method SendData(data: seq<Byte>, polls: seq<Poll>, clock: nat -> Word, ghost f: Flight)
      returns (r: int, out: seq<Out>, ghost cs: seq<Conn>, ghost es: seq<Event>, ghost g: nat)
      requires Valid() && |polls| > GUARD
      modifies this, txq
      ensures Valid() && Trace(cs, es) && cs[0] == Conn(old(State()), f) && cs[|es|].t == State()
      ensures Follows(cs, es, data) && g <= |polls| && Outside(es) == Brought(polls, g)
      ensures out == Wire(cs, es, |es|) && |Stream(out)| <= |data| && Stream(out) == data[..|Stream(out)|]
      ensures old(closed || !established) ==> r == -1 && es == []
      ensures old(!closed && established) ==>
                r == if (closed && Stream(out) == []) || (!closed && g > GUARD) then -1 else |Stream(out)|
      ensures r != -1 ==> r == |data| || closed
    {
      out, cs, es, g := [], [Conn(State(), f)], [], 0;
      if closed || !established {
        return -1, out, cs, es, g;
      }
      var sent: nat, guard: nat := 0, 0;
      while sent < |data|
        invariant Valid() && 0 <= guard <= GUARD && guard == g && !closed && Outside(es) == Brought(polls, g)
        invariant Played(cs, es, data, sent, out) && cs[0] == Conn(old(State()), f) && cs[|es|].t == State()
        decreases GUARD - guard, |data| - sent
      {
        var inflight := Minus(nxt, una);
        var window := if cwnd == 0 then MSS else cwnd;
        if inflight >= window {
          cs, es := PollOnce(polls[guard], cs, es, data, sent, out);
          g := g + 1;
          if closed {
            return if sent > 0 then sent else -1, out, cs, es, g;
          }
          guard := guard + 1;
          if guard > GUARD {
            return -1, out, cs, es, g;
          }
        } else {
          var o;
          o, cs, es := SendRound(data, sent, inflight, window, clock(|out|), cs, es, out);
          out := out + [o];
          sent := sent + |o.bytes|;
        }
      }
      return sent, out, cs, es, g;
    }
  }
}
