/** Output to a client over a non-blocking socket: the send buffer, the flush loop with its
    partial writes, and the batching of one event's output into one send. */
module OutputStream {

  type Byte = b: int | 0 <= b < 256

  const MAX_SEND_BUFFER: nat := 0x10_0000

  /** How a call of send can end. The kernel never takes more bytes than it is given. */
  datatype SendResult = Wrote(n: nat) | Interrupted | WouldBlock | WroteNothing | Failed

  /** How the flush loop stops: all sent, stopped for now, or the connection is broken. */
  datatype Stop = Done | Later | Broken

  /** How many of the next `n` bytes the calls of send in `rs` take before the loop stops;
      a list that runs out stands for a socket that would block. */
  function Taken(rs: seq<SendResult>, n: nat): (k: nat)
    ensures k <= n
    decreases |rs|
  {
    if n == 0 || rs == [] then 0
    else
      match rs[0]
      case Wrote(m) => if m == 0 then 0 else if m >= n then n else m + Taken(rs[1..], n - m)
      case Interrupted => Taken(rs[1..], n)
      case _ => 0
  }

  function Ends(rs: seq<SendResult>, n: nat): Stop
    decreases |rs|
  {
    if n == 0 then Done
    else if rs == [] then Later
    else
      match rs[0]
      case Wrote(m) => if m == 0 then Later else if m >= n then Done else Ends(rs[1..], n - m)
      case Interrupted => Ends(rs[1..], n)
      case Failed => Broken
      case _ => Later
  }

  lemma {:induction false} DoneTakesAll(rs: seq<SendResult>, n: nat)
    ensures Ends(rs, n) == Done <==> Taken(rs, n) == n
    decreases |rs|
  {
    if n > 0 && rs != [] {
      match rs[0]
      case Wrote(m) => if 0 < m < n { DoneTakesAll(rs[1..], n - m); }
      case Interrupted => DoneTakesAll(rs[1..], n);
      case _ =>
    }
  }

  /** Calls that take something, or are retried. */
  predicate AllGood(rs: seq<SendResult>) {
    forall i :: 0 <= i < |rs| ==> rs[i] == Interrupted || (rs[i].Wrote? && rs[i].n > 0)
  }

  /** What such calls take together. */
  function Sum(rs: seq<SendResult>): nat
    decreases |rs|
  {
    if rs == [] then 0 else (if rs[0].Wrote? then rs[0].n else 0) + Sum(rs[1..])
  }

  /** All the writes before a stop are taken, as far as there are bytes; what comes after the
      stop is not; and the stop decides how the loop ends. */
  lemma {:induction false} WritesBeforeStop(ws: seq<SendResult>, stop: SendResult, more: seq<SendResult>, n: nat)
    requires AllGood(ws) && stop in {WouldBlock, WroteNothing, Failed}
    ensures var rs := ws + [stop] + more;
      if Sum(ws) >= n then Taken(rs, n) == n && Ends(rs, n) == Done
      else Taken(rs, n) == Sum(ws) && Ends(rs, n) == if stop == Failed then Broken else Later
    decreases |ws|
  {
    var rs := ws + [stop] + more;
    if n > 0 {
      if ws == [] {
        assert rs[0] == stop;
      } else {
        assert rs[0] == ws[0] && rs[1..] == ws[1..] + [stop] + more;
        var left := if ws[0].Wrote? && ws[0].n >= n then 0 else if ws[0].Wrote? then n - ws[0].n else n;
        WritesBeforeStop(ws[1..], stop, more, left);
      }
    }
  }

  /** Two partial writes that together make up the buffer empty it. */
  lemma TwoWritesEmpty(a: nat, b: nat)
    requires a > 0 && b > 0
    ensures Taken([Wrote(a), Wrote(b)], a + b) == a + b && Ends([Wrote(a), Wrote(b)], a + b) == Done
  {
    assert [Wrote(a), Wrote(b)][1..] == [Wrote(b)];
    assert Taken([Wrote(b)], b) == b && Ends([Wrote(b)], b) == Done;
  }

  function Uninterrupted(rs: seq<SendResult>): seq<SendResult> {
    if rs == [] then [] else (if rs[0] == Interrupted then [] else [rs[0]]) + Uninterrupted(rs[1..])
  }

  /** A call broken off by a signal is retried: it changes neither what is sent nor the end. */
  lemma {:induction false} SignalsDoNotMatter(rs: seq<SendResult>, n: nat)
    ensures Taken(rs, n) == Taken(Uninterrupted(rs), n) && Ends(rs, n) == Ends(Uninterrupted(rs), n)
    decreases |rs|
  {
    if n > 0 && rs != [] {
      var us := Uninterrupted(rs);
      match rs[0]
      case Interrupted =>
        assert us == Uninterrupted(rs[1..]);
        SignalsDoNotMatter(rs[1..], n);
      case Wrote(m) =>
        assert us[0] == rs[0] && us[1..] == Uninterrupted(rs[1..]);
        if 0 < m < n { SignalsDoNotMatter(rs[1..], n - m); }
      case _ => assert us[0] == rs[0];
    }
  }

  /** A broken connection takes a failed call. */
  lemma {:induction false} OnlyFailuresBreak(rs: seq<SendResult>, n: nat)
    ensures Ends(rs, n) == Broken ==> Failed in rs
    decreases |rs|
  {
    if n > 0 && rs != [] {
      match rs[0]
      case Wrote(m) => if 0 < m < n { OnlyFailuresBreak(rs[1..], n - m); }
      case Interrupted => OnlyFailuresBreak(rs[1..], n);
      case _ =>
    }
  }

  /** What a connection is to its client and to the server. */
  datatype Link = Link(buffer: seq<Byte>, delivered: seq<Byte>, open: bool, overQuit: bool)

  function AfterFlush(l: Link, rs: seq<SendResult>): Link {
    var n := |l.buffer|;
    if n == 0 then l
    else if n > MAX_SEND_BUFFER || !l.open then Link([], l.delivered, false, true)
    else
      var k := Taken(rs, n);
      if Ends(rs, n) == Broken then Link([], l.delivered + l.buffer[..k], false, true)
      else l.(buffer := l.buffer[k..], delivered := l.delivered + l.buffer[..k])
  }

  lemma Pieces(delivered: seq<Byte>, buffer: seq<Byte>, k: nat)
    requires k <= |buffer|
    ensures (delivered + buffer[..k]) + buffer[k..] == delivered + buffer
  {
  }

  /** A flush gives a connection up exactly when more than 1 MB is waiting, or anything is and
      its socket is closed or breaks. */
  lemma WhenGivenUp(l: Link, rs: seq<SendResult>)
    requires l.open
    ensures !AfterFlush(l, rs).open <==> |l.buffer| > 1_048_576 || Ends(rs, |l.buffer|) == Broken
  {
  }

  class Connection {
    var sendBuffer: seq<Byte>
    var pending: bool
    /** STATUS_OVER_QUIT. Handlers may still overwrite it after the socket has failed. */
    var overQuit: bool
    /** The socket has not been closed. */
    var open: bool
    /** Bytes the kernel has taken, and bytes the server has output, since the connection
        was accepted. */
    ghost var delivered: seq<Byte>
    ghost var output: seq<Byte>

    ghost function State(): Link
      reads this
    {
      Link(sendBuffer, delivered, open, overQuit)
    }

    /** While the socket is open no byte is lost, doubled or moved; once it is closed what
        was delivered is still a prefix; and bytes waiting in the buffer are never forgotten
        by the timer. */
    ghost predicate Valid()
      reads this
    {
      && (open ==> delivered + sendBuffer == output)
      && delivered <= output
      && (sendBuffer != [] ==> pending)
    }

    constructor ()
      ensures Valid() && open && !overQuit && delivered == [] == output
    {
      sendBuffer, pending, overQuit, open := [], false, false, true;
      delivered, output := [], [];
    }

    method Kill()
      modifies this
      ensures sendBuffer == [] && !pending && overQuit && !open
      ensures delivered == old(delivered) && output == old(output)
    {
      sendBuffer, pending, overQuit, open := [], false, true, false;
    }

    /** The calls of send on a buffer, until all is sent or the loop has to stop. */
    method SendAll(buffer: seq<Byte>, rs: seq<SendResult>) returns (sent: nat, stop: Stop)
      modifies this`delivered
      ensures sent == Taken(rs, |buffer|) && stop == Ends(rs, |buffer|)
      ensures delivered == old(delivered) + buffer[..sent]
    {
      var i, n := 0, |buffer|;
      sent := 0;
      while sent < n
        invariant 0 <= sent <= n && 0 <= i <= |rs|
        invariant Taken(rs, n) == sent + Taken(rs[i..], n - sent) && Ends(rs, n) == Ends(rs[i..], n - sent)
        invariant delivered == old(delivered) + buffer[..sent]
        decreases |rs| - i, n - sent
      {
        if i == |rs| {
          return sent, Later;
        }
        var r := rs[i];
        i := i + 1;
        if r.Wrote? && r.n > 0 {
          var m := if r.n <= n - sent then r.n else n - sent;
          assert buffer[..sent + m] == buffer[..sent] + buffer[sent..sent + m];
          delivered := delivered + buffer[sent..sent + m];
          sent := sent + m;
        } else if r != Interrupted {
          return sent, if r == Failed then Broken else Later;
        }
      }
      stop := Done;
    }

    /** Sends what the socket takes and keeps the rest; a closed socket refuses every byte. */
    method Flush(rs: seq<SendResult>) returns (ok: bool)
      requires Valid()
      modifies this
      ensures Valid() && output == old(output) && (pending <==> sendBuffer != [])
      ensures State() == AfterFlush(old(State()), rs)
      ensures var n := |old(sendBuffer)|;
        ok <==> n == 0 || (n <= MAX_SEND_BUFFER && old(open) && Ends(rs, n) != Broken)
    {
      if sendBuffer == [] {
        pending := false;
        return true;
      }
      if |sendBuffer| > MAX_SEND_BUFFER {
        Kill();
        return false;
      }
      var sent, stop := SendAll(sendBuffer, if open then rs else [Failed]);
      Pieces(old(delivered), sendBuffer, sent);
      if stop == Broken {
        Kill();
        return false;
      }
      sendBuffer := sendBuffer[sent..];
      pending := sendBuffer != [];
      return true;
    }

    /** More output: appended, and sent at once unless a batch is open. */
    method Output(s: seq<Byte>, depth: nat, rs: seq<SendResult>) returns (ok: bool)
      requires Valid()
      modifies this
      ensures Valid() && output == old(output) + s
      ensures var l := old(State()).(buffer := old(sendBuffer) + s);
        State() == if depth > 0 then l else AfterFlush(l, rs)
      ensures depth > 0 ==> ok && delivered == old(delivered) && sendBuffer == old(sendBuffer) + s && pending
      ensures depth > 0 ==> open == old(open) && overQuit == old(overQuit)
      ensures depth == 0 && old(open) && ok && Ends(rs, |old(sendBuffer) + s|) == Done ==> delivered == output
    {
      assert delivered + (sendBuffer + s) == (delivered + sendBuffer) + s;
      sendBuffer, pending, output := sendBuffer + s, true, output + s;
      if depth > 0 {
        return true;
      }
      DoneTakesAll(rs, |sendBuffer|);
      ok := Flush(rs);
    }

    /** The end of a batch that leaves `depth` batches open: only the outermost sends, and
        only on a connection that has not been given up. */
    method EndBatch(depth: nat, rs: seq<SendResult>)
      requires Valid()
      modifies this
      ensures Valid() && output == old(output)
      ensures State() == if depth > 0 || old(overQuit) then old(State()) else AfterFlush(old(State()), rs)
      ensures depth > 0 || old(overQuit) ==>
        delivered == old(delivered) && sendBuffer == old(sendBuffer) && open == old(open) && overQuit == old(overQuit)
      ensures (depth == 0 && !old(overQuit) && old(open) && |old(sendBuffer)| <= MAX_SEND_BUFFER
               && Ends(rs, |old(sendBuffer)|) == Done) ==> delivered == output && open
    {
      if depth > 0 || overQuit {
        return;
      }
      DoneTakesAll(rs, |sendBuffer|);
      var _ := Flush(rs);
    }

    /** The 100 ms timer sends what is left over. */
    method OnTimer(rs: seq<SendResult>)
      requires Valid()
      modifies this
      ensures Valid() && output == old(output)
      ensures State() == AfterFlush(old(State()), rs)
      ensures old(open) && |old(sendBuffer)| <= MAX_SEND_BUFFER && Ends(rs, |old(sendBuffer)|) == Done ==>
        delivered == output && open
    {
      DoneTakesAll(rs, |sendBuffer|);
      if pending {
        var _ := Flush(rs);
      }
    }

    /** The client has gone: a handler closes the socket, with output possibly still waiting. */
    method HangUp()
      requires Valid()
      modifies this
      ensures Valid() && output == old(output)
      ensures State() == old(State()).(open := false, overQuit := true)
    {
      overQuit, open := true, false;
    }
  }

  // ------------------------------------------------------------------------- runs

  datatype Op =
    | Out(s: seq<Byte>, rs: seq<SendResult>)
    | Begin
    | End(rs: seq<SendResult>)
    | Timer(rs: seq<SendResult>)
    | Leave
    | Restate(overQuit: bool)   // a handler sets another status

  /** Batches are scopes: they end in the reverse order of their beginning. */
  predicate Nested(ops: seq<Op>, depth: nat)
    decreases |ops|
  {
    ops == [] ||
    match ops[0]
    case Begin => Nested(ops[1..], depth + 1)
    case End(_) => depth > 0 && Nested(ops[1..], depth - 1)
    case _ => Nested(ops[1..], depth)
  }

  function Chunk(e: Op): seq<Byte> { if e.Out? then e.s else [] }

  /** Everything the server outputs in a run. */
  function Written(ops: seq<Op>): seq<Byte>
    decreases |ops|
  {
    if ops == [] then [] else Chunk(ops[0]) + Written(ops[1..])
  }

  function DepthAfter(e: Op, depth: nat): nat
    requires e.End? ==> depth > 0
  {
    if e.Begin? then depth + 1 else if e.End? then depth - 1 else depth
  }

  function AfterOp(l: Link, e: Op, depth: nat): Link
    requires e.End? ==> depth > 0
  {
    match e
    case Out(s, rs) =>
      var m := l.(buffer := l.buffer + s);
      if depth > 0 then m else AfterFlush(m, rs)
    case Begin => l
    case End(rs) => if depth > 1 || l.overQuit then l else AfterFlush(l, rs)
    case Timer(rs) => AfterFlush(l, rs)
    case Leave => l.(open := false, overQuit := true)
    case Restate(q) => l.(overQuit := q)
  }

  function AfterOps(l: Link, ops: seq<Op>, depth: nat): Link
    requires Nested(ops, depth)
    decreases |ops|
  {
    if ops == [] then l else AfterOps(AfterOp(l, ops[0], depth), ops[1..], DepthAfter(ops[0], depth))
  }

  /** A connection whose client does not leave, whose calls of send never fail, and which
      does not have more than 1 MB to send, is never given up. */
  lemma {:induction false} LivesOn(l: Link, ops: seq<Op>, depth: nat)
    requires Nested(ops, depth) && l.open && |l.buffer| + |Written(ops)| <= MAX_SEND_BUFFER
    requires forall e <- ops :: !e.Leave? && ((e.Out? || e.End? || e.Timer?) ==> Failed !in e.rs)
    ensures AfterOps(l, ops, depth).open
    decreases |ops|
  {
    if ops != [] {
      var e := ops[0];
      assert e in ops;
      var m := AfterOp(l, e, depth);
      if e.Out? || e.End? || e.Timer? {
        OnlyFailuresBreak(e.rs, |l.buffer + Chunk(e)|);
      }
      assert m.open && |m.buffer| <= |l.buffer| + |Chunk(e)|;
      LivesOn(m, ops[1..], DepthAfter(e, depth));
    }
  }

  method TakeOp(c: Connection, e: Op, depth: nat) returns (after: nat)
    requires c.Valid() && (e.End? ==> depth > 0)
    modifies c
    ensures c.Valid() && c.output == old(c.output) + Chunk(e)
    ensures after == DepthAfter(e, depth) && c.State() == AfterOp(old(c.State()), e, depth)
  {
    after := depth;
    match e {
      case Out(s, rs) => var _ := c.Output(s, depth, rs);
      case Begin => after := depth + 1;
      case End(rs) =>
        after := depth - 1;
        c.EndBatch(after, rs);
      case Timer(rs) => c.OnTimer(rs);
      case Leave => c.HangUp();
      case Restate(q) => c.overQuit := q;
    }
  }

  /** For any output, batching, partial writes, interruptions and failures: as long as the
      connection lives, the bytes delivered followed by those waiting are the bytes output,
      in order; afterwards the bytes delivered are a prefix of them. */
  method Run(c: Connection, ops: seq<Op>)
    requires c.Valid() && c.open && c.delivered == c.output == c.sendBuffer == []
    requires Nested(ops, 0)
    modifies c
    ensures c.State() == AfterOps(old(c.State()), ops, 0)
    ensures c.open ==> c.delivered + c.sendBuffer == Written(ops)
    ensures c.delivered <= Written(ops)
    ensures c.sendBuffer != [] ==> c.pending
  {
    var i, depth: nat := 0, 0;
    assert ops[0..] == ops;
    while i < |ops|
      invariant 0 <= i <= |ops| && c.Valid()
      invariant Nested(ops[i..], depth)
      invariant AfterOps(c.State(), ops[i..], depth) == AfterOps(old(c.State()), ops, 0)
      invariant c.output + Written(ops[i..]) == Written(ops)
    {
      assert ops[i..][1..] == ops[i + 1..];
      ghost var before, rest := c.output, Written(ops[i + 1..]);
      assert before + (Chunk(ops[i]) + rest) == (before + Chunk(ops[i])) + rest;
      depth := TakeOp(c, ops[i], depth);
      i := i + 1;
    }
  }
}
