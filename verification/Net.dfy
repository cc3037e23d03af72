/** net.c: a socket, with what came in and is not yet handed out, and what is to go out. */
module Net {
  import opened Options
  import opened Lines

  // ---- Writing

  // What was to be sent so far, what has been, and what is queued; eofd marks a socket that failed.
  datatype Writer = Writer(sent: string, wire: string, outbuf: Option<string>, eofd: bool)

  // write() takes any number of the bytes offered, or fails.
  function Accepted(x: int, offered: nat): (n: int)
    ensures -1 <= n <= offered
  {
    if x < 0 then -1 else if x < offered then x else offered
  }

  // tputs(), where a write that is tried takes x bytes.
  function Put(w: Writer, s: string, x: int): Writer {
    match w.outbuf
    case Some(q) => w.(sent := w.sent + s, outbuf := Some(q + s))
    case None =>
      var n := if Accepted(x, |s|) < 0 then 0 else Accepted(x, |s|);
      w.(sent := w.sent + s, wire := w.wire + s[..n], outbuf := if n < |s| then Some(s[n..]) else None)
  }

  // dequeue_sockets() for one socket that is ready for writing; again tells a write that may be
  // repeated from one that found the connection gone.
  function Flush(w: Writer, x: int, again: bool): Writer {
    match w.outbuf
    case None => w
    case Some(q) =>
      var n := Accepted(x, |q|);
      if n < 0 then w.(eofd := w.eofd || !again)
      else if n == |q| then w.(wire := w.wire + q, outbuf := None)
      else w.(wire := w.wire + q[..n], outbuf := Some(q[n..]))
  }

  datatype Output = Send(s: string, x: int) | Ready(x: int, again: bool)

  function Write(w: Writer, e: Output): Writer {
    match e
    case Send(s, x) => Put(w, s, x)
    case Ready(x, again) => Flush(w, x, again)
  }

  function WriteAll(es: seq<Output>): Writer {
    if es == [] then Writer("", "", None, false)
    else Write(WriteAll(es[..|es| - 1]), es[|es| - 1])
  }

  // All that was passed to tputs(), in order.
  function Passed(es: seq<Output>): string {
    if es == [] then ""
    else Passed(es[..|es| - 1]) + match es[|es| - 1] case Send(s, x) => s case Ready(x, again) => ""
  }

  function Queue(w: Writer): string {
    if w.outbuf.None? then "" else w.outbuf.value
  }

  /** Over every sequence of sends and of writes that take any part of what they are offered or
      fail: what is on the wire, followed by the queue, is all that was sent, in order; nothing
      waits behind an empty queue. */
  lemma SentInOrder(es: seq<Output>)
    ensures var w := WriteAll(es);
            w.wire + Queue(w) == Passed(es) && w.outbuf != Some("")
  {
    AllInOrder(es);
  }

  lemma {:induction false} AllInOrder(es: seq<Output>)
    ensures InOrder(WriteAll(es)) && WriteAll(es).sent == Passed(es)
  {
    if es != [] {
      var front, e := es[..|es| - 1], es[|es| - 1];
      AllInOrder(front);
      WriteKeeps(WriteAll(front), e);
    }
  }

  // The wire and the queue hold all that was sent, and the queue is not an empty one.
  predicate InOrder(w: Writer) {
    w.wire + Queue(w) == w.sent && w.outbuf != Some("")
  }

  lemma WriteKeeps(w: Writer, e: Output)
    requires InOrder(w)
    ensures InOrder(Write(w, e))
    ensures Write(w, e).sent == w.sent + if e.Send? then e.s else ""
  {
    match e
    case Send(s, x) => PutKeeps(w, s, x);
    case Ready(x, again) => FlushKeeps(w, x, again);
  }

  lemma Cut(a: string, s: string, n: nat)
    requires n <= |s|
    ensures a + s[..n] + s[n..] == a + s
  {
  }

  lemma PutKeeps(w: Writer, s: string, x: int)
    requires InOrder(w)
    ensures InOrder(Put(w, s, x)) && Put(w, s, x).sent == w.sent + s
  {
    if w.outbuf.None? {
      assert w.wire + "" == w.wire;
      Cut(w.wire, s, if Accepted(x, |s|) < 0 then 0 else Accepted(x, |s|));
    } else {
      assert w.wire + w.outbuf.value + s == w.wire + (w.outbuf.value + s);
    }
  }

  lemma FlushKeeps(w: Writer, x: int, again: bool)
    requires InOrder(w)
    ensures InOrder(Flush(w, x, again)) && Flush(w, x, again).sent == w.sent
  {
    if w.outbuf.Some? && Accepted(x, |w.outbuf.value|) >= 0 {
      Cut(w.wire, w.outbuf.value, Accepted(x, |w.outbuf.value|));
    }
  }

  // What a write that is tried takes of what it is offered.
  function Taken(x: int, offered: nat): nat {
    if x < 0 then 0 else if x < offered then x else offered
  }

  /** A text is offered to the socket at once if nothing waits, and waits otherwise; what waits is offered
      when the socket is ready. Each write puts on the wire just what it takes, and a socket fails for
      good only by a failed write that is not to be repeated. */
  lemma WrittenAtOnce(w: Writer, s: string, x: int)
    ensures var w' := Put(w, s, x);
            && w'.eofd == w.eofd
            && |w'.wire| == |w.wire| + (if w.outbuf.None? then Taken(x, |s|) else 0)
            && (w.outbuf.None? ==> (w'.outbuf.None? <==> Taken(x, |s|) == |s|))
  {
  }

  lemma WrittenWhenReady(w: Writer, x: int, again: bool)
    ensures var w' := Flush(w, x, again);
            && w'.sent == w.sent
            && w'.eofd == (w.eofd || (w.outbuf.Some? && x < 0 && !again))
            && |w'.wire| == |w.wire| + (if w.outbuf.None? then 0 else Taken(x, |w.outbuf.value|))
            && (w.outbuf.Some? ==> (w'.outbuf.None? <==> x >= 0 && Taken(x, |w.outbuf.value|) == |w.outbuf.value|))
  {
  }

  // ---- Scanning for line ends

  method FindEol(s: string, to: nat) returns (p: nat)
    requires to <= |s|
    ensures p == LineEnd(s[..to])
  {
    p := 0;
    while p < to && !Eol(s[p])
      invariant p <= to && Plain(s, 0, p)
    {
      p := p + 1;
    }
    LineEndIs(s[..to], p);
  }

  method PassEols(s: string, from: nat) returns (rest: string)
    requires from <= |s|
    ensures rest == SkipEols(s[from..])
  {
    var p := from;
    while p < |s| && Eol(s[p])
      invariant from <= p <= |s| && SkipEols(s[p..]) == SkipEols(s[from..])
    {
      assert s[p..][1..] == s[p + 1..];
      p := p + 1;
    }
    rest := s[p..];
  }

  method UpToNul(chunk: string) returns (xx: string)
    ensures xx == TextOf(chunk)
  {
    xx := "";
    while |xx| < |chunk| && chunk[|xx|] != '\0'
      invariant |xx| <= |chunk| && TextOf(chunk) == xx + TextOf(chunk[|xx|..])
      decreases |chunk| - |xx|
    {
      assert chunk[|xx|..][1..] == chunk[|xx| + 1..];
      xx := xx + [chunk[|xx|]];
    }
  }

  class Socket {
    var inbuf: string
    var outbuf: Option<string>
    var eofd: bool
    ghost var stream: string
    ghost var lines: seq<string>
    ghost var sent: string
    ghost var wire: string

    ghost function Input(): Reader
      reads this`stream, this`lines, this`inbuf
    {
      Reader(stream, lines, inbuf)
    }

    ghost function Pending(): Writer
      reads this`sent, this`wire, this`outbuf, this`eofd
    {
      Writer(sent, wire, outbuf, eofd)
    }

    constructor ()
      ensures Input() == GetsAll([]) && Pending() == WriteAll([])
    {
      inbuf, outbuf, eofd, stream, lines, sent, wire := "", None, false, "", [], "", "";
    }

    /** sockgets(), for a socket in text mode; chunk is what a read would bring. */
    method Gets(chunk: string) returns (line: Option<string>)
      requires |chunk| <= 511
      modifies this`inbuf, this`stream, this`lines
      ensures Input() == Lines.Gets(old(Input()), chunk)
      ensures lines == old(lines) + if line.Some? then [line.value] else []
    {
      var p := FindEol(inbuf, |inbuf|);
      assert inbuf[..|inbuf|] == inbuf;
      if p < |inbuf| {
        var s := inbuf[..p];
        if |s| > 510 {
          s := s[..510];
        }
        inbuf := PassEols(inbuf, p + 1);
        lines := lines + [s];
        return Some(s);
      }
      var xx := UpToNul(chunk);
      stream := stream + xx;
      line := Scan(inbuf + xx);
    }

    // The part of sockgets() behind the read: all is the stored text with the new one behind it.
    method Scan(all: string) returns (line: Option<string>)
      modifies this`inbuf, this`lines
      ensures line == TakeRead(all).line && inbuf == TakeRead(all).rest
      ensures lines == old(lines) + if line.Some? then [line.value] else []
    {
      var xx;
      if |all| < 512 {
        xx, inbuf := all, "";
      } else {
        xx, inbuf := all[..510], all[510..];
      }
      var data, s := false, "";
      var p := FindEol(xx, |xx|);
      assert xx[..|xx|] == xx;
      if p < |xx| {
        s, data := xx[..p], true;
        xx := PassEols(xx, p + 1);
      } else if |xx| >= 510 {
        s, xx, data := xx, "", true;
      }
      if xx != "" {
        inbuf := xx + inbuf;
      }
      if data {
        lines := lines + [s];
        return Some(s);
      }
      return None;
    }

    /** tputs() */
    method Puts(s: string, x: int)
      modifies this`outbuf, this`sent, this`wire
      ensures Pending() == Put(old(Pending()), s, x)
    {
      sent := sent + s;
      if outbuf.Some? {
        outbuf := Some(outbuf.value + s);
        return;
      }
      var n := Accepted(x, |s|);
      if n == -1 {
        n := 0;
      }
      wire := wire + s[..n];
      if n < |s| {
        outbuf := Some(s[n..]);
      }
    }

    /** dequeue_sockets(), for this socket. */
    method Dequeue(x: int, again: bool)
      modifies this`outbuf, this`eofd, this`wire
      ensures Pending() == Flush(old(Pending()), x, again)
    {
      if outbuf.None? {
        return;
      }
      var n := Accepted(x, |outbuf.value|);
      if n < 0 && !again {
        eofd := true;
      } else if n == |outbuf.value| {
        wire := wire + outbuf.value;
        outbuf := None;
      } else if n > 0 {
        wire := wire + outbuf.value[..n];
        outbuf := Some(outbuf.value[n..]);
      }
    }
  }
}
