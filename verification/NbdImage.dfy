/** What a client of the whole stack reads: the NBD loop over a device's resolver (nbdstream/server_linux.go,
    nbdstream/origin_linux.go). */
module NbdImage {
  import opened Bytes
  import opened NbdWire
  import opened NbdServer

  /** The backend's answer to the k-th request is good enough for it. */
  predicate Good(xs: seq<Exchange>, log: seq<Answer>, max: nat, k: nat)
    requires k < |xs|
  {
    var j := Reads(xs[..k], max);
    xs[k].q.length <= max && j < |log| && log[j].Got? && |log[j].bytes| >= xs[k].q.length
  }

  /** The read is inside the image and fits the server's buffer. */
  predicate Inside(image: seq<byte>, q: Request, max: nat) {
    var off := ToInt64(q.offset);
    q.typ == CMD_READ && q.length <= max && 0 <= off < |image| && off + q.length <= |image|
  }

  /** The backend call made for the k-th request is the one its reply is built from. */
  lemma {:induction false} AskedAt(xs: seq<Exchange>, max: nat, k: nat)
    requires k < |xs| && Asks(xs[k].q, max)
    ensures Reads(xs[..k], max) < Reads(xs, max)
    ensures AllAsked(xs, max)[Reads(xs[..k], max)] == (ToInt64(xs[k].q.offset), xs[k].q.length)
  {
    if k == 0 {
      assert xs[..0] == [];
    } else {
      AskedAt(xs[1..], max, k - 1);
      assert xs[..k][1..] == xs[1..][..k - 1] && xs[..k][0] == xs[0];
    }
  }

  /** The reply to one read, over honest answers. */
  ghost predicate ReadIsImage(image: seq<byte>, q: Request, r: Reply, max: nat) {
    var off := ToInt64(q.offset);
    && r.handle == q.handle
    && (r.errno == 0 ==>
          q.length <= max && 0 <= off && off + q.length <= |image| && r.payload == image[off..off + q.length])
    && (r.errno != 0 ==> r.errno == EIO && r.payload == [])
  }

  lemma HonestReply(image: seq<byte>, q: Request, a: Answer, max: nat)
    requires q.typ == CMD_READ && (Asks(q, max) ==> Honest(image, (ToInt64(q.offset), q.length), a))
    ensures ReadIsImage(image, q, ReplyTo(q, a, max), max)
  {
  }

  lemma RepliesOfStream(xs: seq<Exchange>, answers: seq<Answer>, max: nat)
    requires Valids(xs) && AllFit(xs, max) && NoDisc(xs)
    ensures Serve(Stream(xs), answers, max) == Outcome(Replies(xs, answers, max), AllAsked(xs, max))
  {
    hide Serve, Stream, Replies, AllAsked, DropAnswers, Reads;
    ServeStream(xs, [], answers, max);
    ServeNothing(DropAnswers(answers, Reads(xs, max)), max);
    assert Stream(xs) + [] == Stream(xs);
    assert Replies(xs, answers, max) + [] == Replies(xs, answers, max) && AllAsked(xs, max) + [] == AllAsked(xs, max);
  }

  /** Over a device, the conversation's reply to every read of a well-formed stream is the image's bytes at the read's own
      offset, or an I/O error, even if only the first of its backend calls were made; it is an error exactly if the answer to
      its own call is missing, failed or short. */
  lemma EveryReadIsTheImage(image: seq<byte>, xs: seq<Exchange>, log: seq<Answer>, asks: seq<(int, nat)>, max: nat, k: nat)
    requires Valids(xs) && AllFit(xs, max) && NoDisc(xs) && k < |xs| && xs[k].q.typ == CMD_READ
    requires asks <= Serve(Stream(xs), log, max).asks && AllHonest(image, asks, log)
    ensures var rs := Serve(Stream(xs), log, max).replies;
            |rs| == |xs| && ReadIsImage(image, xs[k].q, rs[k], max) && (rs[k].errno == 0 <==> Good(xs, log, max, k))
  {
    hide Serve, Stream, ReplyTo, ReadIsImage, Honest;
    RepliesOfStream(xs, log, max);
    ReplyIs(xs, log, max, k);
    var j := Reads(xs[..k], max);
    var a := Head(DropAnswers(log, j));
    if Asks(xs[k].q, max) {
      AskedAt(xs, max, k);
      if j < |log| {
        assert a == log[j] && asks[j] == (ToInt64(xs[k].q.offset), xs[k].q.length);
      } else {
        assert a == Fail([]);
        FailIsHonest(image, (ToInt64(xs[k].q.offset), xs[k].q.length));
      }
    }
    HonestReply(image, xs[k].q, a, max);
  }

  /** And if no call inside the image was refused, every read inside it gets its bytes. */
  lemma InsideIsGood(image: seq<byte>, xs: seq<Exchange>, log: seq<Answer>, max: nat, k: nat)
    requires k < |xs| && Inside(image, xs[k].q, max)
    requires AllHonest(image, AllAsked(xs, max), log) && AllAnswered(image, AllAsked(xs, max), log)
    ensures Good(xs, log, max, k)
  {
    AskedAt(xs, max, k);
    var j, off := Reads(xs[..k], max), ToInt64(xs[k].q.offset);
    assert AllAsked(xs, max)[j] == (off, xs[k].q.length);
    assert Honest(image, AllAsked(xs, max)[j], log[j]) && log[j].Got?;
    assert log[j].bytes == image[off..off + Min(xs[k].q.length, |image| - off)];
  }

  /** No error, and the image's bytes. */
  predicate GetsItsBytes(image: seq<byte>, q: Request, r: Reply) {
    var off := ToInt64(q.offset);
    0 <= off && off + q.length <= |image| && r == Reply(q.handle, 0, image[off..off + q.length])
  }

  lemma InsideIsServed(image: seq<byte>, xs: seq<Exchange>, log: seq<Answer>, asks: seq<(int, nat)>, max: nat, k: nat)
    requires Valids(xs) && AllFit(xs, max) && NoDisc(xs) && k < |xs| && Inside(image, xs[k].q, max)
    requires asks == Serve(Stream(xs), log, max).asks && AllHonest(image, asks, log) && AllAnswered(image, asks, log)
    ensures var rs := Serve(Stream(xs), log, max).replies; |rs| == |xs| && GetsItsBytes(image, xs[k].q, rs[k])
  {
    EveryReadIsTheImage(image, xs, log, asks, max, k);
    RepliesOfStream(xs, log, max);
    InsideIsGood(image, xs, log, max, k);
    hide Serve, Stream, Good, AllHonest, AllAnswered;
  }

  lemma FailIsHonest(image: seq<byte>, ask: (int, nat))
    ensures Honest(image, ask, Fail([]))
  {
  }

  /** End to end, in every run of the serve loop over a device, cut off or not: the replies a client can make out of what
      was sent are the conversation's, as many as were sent whole, and each reply to a read among them is the image's bytes
      at its own offset or an I/O error. Unless the socket broke, there is one for every request, and unless the outside
      failed the device meanwhile, every read inside the image gets its bytes. */
  method ServeDevice(server: Server, ghost xs: seq<Exchange>) returns (log: seq<Answer>)
    requires server.pending == 0 && !server.sock.broken && server.Apart() && server.backend.Valid()
    requires server.backend.origin.Device? && server.sock.output == []
    requires Valids(xs) && AllFit(xs, server.max) && NoDisc(xs) && server.sock.input == Stream(xs)
    modifies server`closed, server`pending, server`completed, server.sock, server.backend.Repr()
    ensures var got := Delivered(xs, server.sock.output);
            && |got| <= |xs| && (!server.sock.broken ==> |got| == |xs|)
            && Complete(Replies(xs, log, server.max), got, server.sock.output)
            && forall k :: 0 <= k < |got| && xs[k].q.typ == CMD_READ ==>
                 ReadIsImage(server.backend.origin.resolver.image, xs[k].q, got[k], server.max)
    ensures var got := Delivered(xs, server.sock.output);
            !server.sock.broken && server.backend.origin.resolver.faults == old(server.backend.origin.resolver.faults) ==>
              |got| == |xs| && forall k :: 0 <= k < |xs| && Inside(server.backend.origin.resolver.image, xs[k].q, server.max) ==>
                GetsItsBytes(server.backend.origin.resolver.image, xs[k].q, got[k])
  {
    hide NbdWire.Serve, Stream, ReplyTo, ReadIsImage, Honest, AllHonest, AllAnswered, Delivered, Wire, Replies, EncodeReply,
         Resolvers.Resolver.Valid, Good, Inside, GetsItsBytes;
    var asks;
    log, asks := server.Serve();
    ghost var max, image := server.max, server.backend.origin.resolver.image;
    ghost var o := NbdWire.Serve(Stream(xs), log, max);
    RepliesOfStream(xs, log, max);
    assert [] + Wire(o.replies) == Wire(o.replies);
    ClientReadsItsReplies(xs, log, max, server.sock.output);
    ghost var got := Delivered(xs, server.sock.output);
    forall k | 0 <= k < |got| && xs[k].q.typ == CMD_READ
      ensures ReadIsImage(image, xs[k].q, got[k], max) && (got[k].errno == 0 <==> Good(xs, log, max, k))
    {
      EveryReadIsTheImage(image, xs, log, asks, max, k);
    }
    if !server.sock.broken && server.backend.origin.resolver.faults == old(server.backend.origin.resolver.faults) {
      forall k | 0 <= k < |xs| && Inside(image, xs[k].q, max) ensures GetsItsBytes(image, xs[k].q, got[k]) {
        InsideIsServed(image, xs, log, asks, max, k);
      }
    }
  }

  /** A read that reaches past the end of the image is refused, not filled up with zeros: the resolver zeroes the rest of
      the buffer but counts only the image's bytes, and a short count is an error. */
  lemma StraddlingReadRefused(image: seq<byte>, q: Request, a: Answer, max: nat)
    requires q.typ == CMD_READ && (Asks(q, max) ==> Honest(image, (ToInt64(q.offset), q.length), a))
    requires ToInt64(q.offset) + q.length > |image|
    ensures ReplyTo(q, a, max) == Reply(q.handle, EIO, [])
  {
  }

  /** The device is given size/512 sectors. A request inside them ends inside the image, so it is not refused for that;
      a last part of the image shorter than a sector cannot be asked for. */
  lemma SectorsInside(size: nat, off: nat, len: nat)
    ensures off + len <= 512 * (size / 512) ==> off + len <= size
    ensures size % 512 != 0 ==> 512 * (size / 512) < size
  {
  }
}
