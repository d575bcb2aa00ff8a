/** The NBD transmission phase as byte streams: what a request stream means and what the client reads back
    (nbdstream/server_linux.go). */
module NbdWire {
  import opened Bytes

  const REQUEST_MAGIC := 0x25609513
  const REPLY_MAGIC := 0x67446698
  const CMD_READ := 0
  const CMD_WRITE := 1
  const CMD_DISC := 2
  const CMD_FLUSH := 3
  const CMD_TRIM := 5
  const EPERM := 1
  const EIO := 5
  const REQUEST_LEN := 28
  const REPLY_LEN := 16

  type uint16 = x: int | 0 <= x < 0x1_0000

  // ---- big-endian integers ----

  function BE(n: nat, w: nat): (b: seq<byte>)
    ensures |b| == w
  {
    if w == 0 then [] else BE(n / 256, w - 1) + [n % 256]
  }

  function FromBE(b: seq<byte>): (n: nat)
    ensures n < Pow256(|b|)
  {
    if b == [] then 0 else 256 * FromBE(b[..|b| - 1]) + b[|b| - 1]
  }

  lemma {:induction false} FromBEofBE(n: nat, w: nat)
    requires n < Pow256(w)
    ensures FromBE(BE(n, w)) == n
  {
    if w > 0 {
      FromBEofBE(n / 256, w - 1);
      assert BE(n, w)[..w - 1] == BE(n / 256, w - 1);
    }
  }

  // ---- requests and replies ----

  datatype Request = Request(flags: uint16, typ: uint16, handle: seq<byte>, offset: uint64, length: uint32) {
    predicate Valid() { |handle| == 8 }
  }

  function EncodeRequest(q: Request): (b: seq<byte>)
    requires q.Valid()
    ensures |b| == REQUEST_LEN
  {
    BE(REQUEST_MAGIC, 4) + BE(0x1_0000 * q.flags + q.typ, 4) + q.handle + BE(q.offset, 8) + BE(q.length, 4)
  }

  /** None: the magic is wrong. The type word's upper half holds command flags and is masked off the type. */
  function ParseRequest(b: seq<byte>): (q: Option<Request>)
    requires |b| == REQUEST_LEN
    ensures q.Some? ==> q.value.Valid()
  {
    Pow256Values();
    if FromBE(b[0..4]) != REQUEST_MAGIC then None
    else
      var word := FromBE(b[4..8]);
      Some(Request(word / 0x1_0000, word % 0x1_0000, b[8..16], FromBE(b[16..24]), FromBE(b[24..28])))
  }

  /** A header is a request exactly if it begins with the magic number. */
  lemma ParsesIff(b: seq<byte>)
    requires |b| == REQUEST_LEN
    ensures ParseRequest(b).Some? <==> b[0] == 0x25 && b[1] == 0x60 && b[2] == 0x95 && b[3] == 0x13
  {
    var m := b[0..4];
    var b0: nat, b1: nat, b2: nat, b3: nat := b[0], b[1], b[2], b[3];
    assert m[..3] == [b[0], b[1], b[2]] && m[..3][..2] == [b[0], b[1]] && m[..3][..2][..1] == [b[0]];
    assert FromBE([b[0]]) == b0 by { assert [b[0]][..0] == []; }
    assert FromBE(m[..3][..2]) == 256 * b0 + b1;
    assert FromBE(m[..3]) == 256 * (256 * b0 + b1) + b2;
    assert FromBE(m) == 256 * (256 * (256 * b0 + b1) + b2) + b3;
  }

  lemma ParseOfEncode(q: Request)
    requires q.Valid()
    ensures ParseRequest(EncodeRequest(q)) == Some(q)
  {
    hide BE, FromBE, Pow256;
    Pow256Values();
    var b := EncodeRequest(q);
    FromBEofBE(REQUEST_MAGIC, 4);
    FromBEofBE(0x1_0000 * q.flags + q.typ, 4);
    FromBEofBE(q.offset, 8);
    FromBEofBE(q.length, 4);
    assert b[0..4] == BE(REQUEST_MAGIC, 4) && b[4..8] == BE(0x1_0000 * q.flags + q.typ, 4) && b[8..16] == q.handle;
    assert b[16..24] == BE(q.offset, 8);
    assert b[24..] == BE(q.length, 4) && b[24..28] == b[24..];
  }

  datatype Reply = Reply(handle: seq<byte>, errno: uint32, payload: seq<byte>)

  function Header(handle: seq<byte>, errno: uint32): (b: seq<byte>)
    requires |handle| == 8
    ensures |b| == REPLY_LEN
  {
    BE(REPLY_MAGIC, 4) + BE(errno, 4) + handle
  }

  function EncodeReply(r: Reply): (b: seq<byte>)
    requires |r.handle| == 8
  {
    Header(r.handle, r.errno) + r.payload
  }

  predicate Handles(rs: seq<Reply>) { forall k :: 0 <= k < |rs| ==> |rs[k].handle| == 8 }

  function Wire(rs: seq<Reply>): seq<byte>
    requires Handles(rs)
  {
    if rs == [] then [] else Wire(rs[..|rs| - 1]) + EncodeReply(rs[|rs| - 1])
  }

  lemma {:induction false} WireSplit(a: seq<Reply>, b: seq<Reply>)
    requires Handles(a) && Handles(b)
    ensures Handles(a + b) && Wire(a + b) == Wire(a) + Wire(b)
  {
    if b == [] {
      assert a + b == a;
    } else {
      hide EncodeReply;
      var i, last := b[..|b| - 1], b[|b| - 1];
      WireSplit(a, i);
      WireLast(b);
      WireLast(a + b);
      assert (a + b)[..|a + b| - 1] == a + i;
      hide Wire;
      Assoc(Wire(a), Wire(i), EncodeReply(last));
    }
  }

  lemma WireLast(rs: seq<Reply>)
    requires rs != [] && Handles(rs)
    ensures Wire(rs) == Wire(rs[..|rs| - 1]) + EncodeReply(rs[|rs| - 1])
  {
  }

  lemma Assoc<T>(a: seq<T>, b: seq<T>, c: seq<T>)
    ensures (a + b) + c == a + (b + c)
  {
  }

  // ---- what a request stream means ----

  /** One call to the backend: an error (with whatever it left in the buffer), or that many bytes. */
  datatype Answer = Fail(left: seq<byte>) | Got(bytes: seq<byte>)

  function Head(answers: seq<Answer>): Answer { if answers == [] then Fail([]) else answers[0] }

  function Tail(answers: seq<Answer>): seq<Answer> { if answers == [] then [] else answers[1..] }

  /** A read succeeds when the backend filled the whole buffer; a short read is an I/O error. */
  function ReadReply(q: Request, a: Answer): Reply {
    if a.Got? && |a.bytes| >= q.length then Reply(q.handle, 0, a.bytes[..q.length]) else Reply(q.handle, EIO, [])
  }

  predicate Asks(q: Request, max: nat) { q.typ == CMD_READ && q.length <= max }

  /** The reply to a request, given the backend's answer if it is asked. DISC has none. */
  function ReplyTo(q: Request, a: Answer, max: nat): Reply {
    if Asks(q, max) then ReadReply(q, a)
    else if q.typ == CMD_READ then Reply(q.handle, EIO, [])
    else if q.typ == CMD_FLUSH || q.typ == CMD_TRIM then Reply(q.handle, 0, [])
    else Reply(q.handle, EPERM, [])
  }

  /** What the protocol asks of a reply, a being the backend's answer to the call made for the request. A read gets the
      first q.length bytes of the answer if it fits the buffer and the answer is long enough, and an I/O error otherwise;
      flush and trim succeed; everything else is not permitted. */
  predicate Answers(q: Request, a: Answer, max: nat, r: Reply) {
    && r.handle == q.handle
    && (q.typ == CMD_READ ==>
          if q.length <= max && a.Got? && |a.bytes| >= q.length then r.errno == 0 && r.payload == a.bytes[..q.length]
          else r.errno == EIO && r.payload == [])
    && (q.typ == CMD_FLUSH || q.typ == CMD_TRIM ==> r.errno == 0 && r.payload == [])
    && (q.typ != CMD_READ && q.typ != CMD_FLUSH && q.typ != CMD_TRIM ==> r.errno == EPERM && r.payload == [])
  }

  /** How many bytes after the request header are read and dropped: a write's payload, if it fits the scratch buffer. */
  function Drained(q: Request, max: nat): nat { if q.typ == CMD_WRITE && q.length <= max then q.length else 0 }

  /** Replies in order, and the (offset, length) pairs the backend is asked for. */
  datatype Outcome = Outcome(replies: seq<Reply>, asks: seq<(int, nat)>)

  function Before(rs: seq<Reply>, asks: seq<(int, nat)>, o: Outcome): Outcome {
    Outcome(rs + o.replies, asks + o.asks)
  }

  lemma BeforeTwice(r: seq<Reply>, a: seq<(int, nat)>, rs: seq<Reply>, asks: seq<(int, nat)>, o: Outcome)
    ensures Before(r, a, Before(rs, asks, o)) == Before(r + rs, a + asks, o)
  {
    Assoc(r, rs, o.replies);
    Assoc(a, asks, o.asks);
  }

  function Asked(q: Request, max: nat): seq<(int, nat)> {
    if Asks(q, max) then [(ToInt64(q.offset), q.length)] else []
  }

  function Left(q: Request, answers: seq<Answer>, max: nat): seq<Answer> {
    if Asks(q, max) then Tail(answers) else answers
  }

  function Dropped(s: seq<byte>, n: nat): seq<byte> { if n <= |s| then s[n..] else [] }

  /** The whole conversation on a byte stream that ends after `input`. */
  function Serve(input: seq<byte>, answers: seq<Answer>, max: nat): (o: Outcome)
    ensures Handles(o.replies)
    decreases |input|
  {
    if |input| < REQUEST_LEN then Outcome([], [])
    else
      var p := ParseRequest(input[..REQUEST_LEN]);
      if p.None? || p.value.typ == CMD_DISC then Outcome([], [])
      else
        var q := p.value;
        var rest := Serve(Dropped(input[REQUEST_LEN..], Drained(q, max)), Left(q, answers, max), max);
        Before([ReplyTo(q, Head(answers), max)], Asked(q, max), rest)
  }

  // ---- a well-formed client ----

  /** A request and, for a write, its payload. */
  datatype Exchange = Exchange(q: Request, payload: seq<byte>) {
    predicate Valid() { q.Valid() && |payload| == if q.typ == CMD_WRITE then q.length else 0 }

    predicate Fits(max: nat) { |payload| <= max }
  }

  predicate Valids(xs: seq<Exchange>) { forall k :: 0 <= k < |xs| ==> xs[k].Valid() }

  predicate AllFit(xs: seq<Exchange>, max: nat) { forall k :: 0 <= k < |xs| ==> xs[k].Fits(max) }

  predicate NoDisc(xs: seq<Exchange>) { forall k :: 0 <= k < |xs| ==> xs[k].q.typ != CMD_DISC }

  function Stream(xs: seq<Exchange>): seq<byte>
    requires Valids(xs)
  {
    if xs == [] then [] else EncodeRequest(xs[0].q) + xs[0].payload + Stream(xs[1..])
  }

  /** How many of the exchanges reach the backend. */
  function Reads(xs: seq<Exchange>, max: nat): nat {
    if xs == [] then 0 else (if Asks(xs[0].q, max) then 1 else 0) + Reads(xs[1..], max)
  }

  function DropAnswers(answers: seq<Answer>, n: nat): seq<Answer> { if n <= |answers| then answers[n..] else [] }

  /** The first request of a stream is parsed at its true boundary: after it comes exactly what the client sent next. */
  lemma ServeFirst(x: Exchange, tail: seq<byte>, answers: seq<Answer>, max: nat)
    requires x.Valid() && x.Fits(max)
    ensures var s := EncodeRequest(x.q) + x.payload + tail;
            if x.q.typ == CMD_DISC then Serve(s, answers, max) == Outcome([], [])
            else
              var rest := Serve(tail, Left(x.q, answers, max), max);
              Serve(s, answers, max) == Before([ReplyTo(x.q, Head(answers), max)], Asked(x.q, max), rest)
  {
    hide EncodeRequest, ParseRequest, ReplyTo, Asked, Left;
    var s := EncodeRequest(x.q) + x.payload + tail;
    ParseOfEncode(x.q);
    assert s[..REQUEST_LEN] == EncodeRequest(x.q);
    assert s[REQUEST_LEN..] == x.payload + tail;
    assert Dropped(x.payload + tail, |x.payload|) == tail;
  }

  /** The replies to a list of exchanges, and what the backend is asked for, without any bytes. */
  function Replies(xs: seq<Exchange>, answers: seq<Answer>, max: nat): (rs: seq<Reply>)
    ensures |rs| == |xs| && (Valids(xs) ==> Handles(rs))
  {
    if xs == [] then []
    else [ReplyTo(xs[0].q, Head(answers), max)] + Replies(xs[1..], Left(xs[0].q, answers, max), max)
  }

  function AllAsked(xs: seq<Exchange>, max: nat): (a: seq<(int, nat)>)
    ensures |a| == Reads(xs, max)
  {
    if xs == [] then [] else Asked(xs[0].q, max) + AllAsked(xs[1..], max)
  }

  lemma StreamFirst(xs: seq<Exchange>, tail: seq<byte>)
    requires xs != [] && Valids(xs)
    ensures Valids(xs[1..])
    ensures Stream(xs) + tail == EncodeRequest(xs[0].q) + xs[0].payload + (Stream(xs[1..]) + tail)
  {
    hide EncodeRequest;
  }

  /** Every request of the stream is parsed at its true boundary, and what follows the stream is served afterwards. */
  lemma {:induction false} ServeStream(xs: seq<Exchange>, tail: seq<byte>, answers: seq<Answer>, max: nat)
    requires Valids(xs) && AllFit(xs, max) && NoDisc(xs)
    ensures var after := Serve(tail, DropAnswers(answers, Reads(xs, max)), max);
            Serve(Stream(xs) + tail, answers, max)
            == Before(Replies(xs, answers, max), AllAsked(xs, max), after)
  {
    if xs == [] {
      assert Stream(xs) + tail == tail;
      assert [] + Serve(tail, answers, max).replies == Serve(tail, answers, max).replies;
    } else {
      hide ReplyTo, Head, EncodeRequest, ParseRequest, Serve, Asked, Left, Asks, Stream, DropAnswers, Before;
      var q, more, left := xs[0].q, Stream(xs[1..]) + tail, Left(xs[0].q, answers, max);
      StreamFirst(xs, tail);
      ServeFirst(xs[0], more, answers, max);
      ServeStream(xs[1..], tail, left, max);
      DropLeft(q, answers, max, Reads(xs[1..], max));
      BeforeTwice([ReplyTo(q, Head(answers), max)], Asked(q, max), Replies(xs[1..], left, max), AllAsked(xs[1..], max),
                  Serve(tail, DropAnswers(left, Reads(xs[1..], max)), max));
    }
  }

  lemma ReplyAnswers(q: Request, a: Answer, max: nat)
    ensures Answers(q, a, max, ReplyTo(q, a, max))
  {
  }

  /** The k-th reply answers the k-th request: its handle, its error code, and for a read the bytes of the backend call
      made for it. */
  lemma {:induction false} ReplyIs(xs: seq<Exchange>, answers: seq<Answer>, max: nat, k: nat)
    requires k < |xs|
    ensures Replies(xs, answers, max)[k] == ReplyTo(xs[k].q, Head(DropAnswers(answers, Reads(xs[..k], max))), max)
    ensures Answers(xs[k].q, Head(DropAnswers(answers, Reads(xs[..k], max))), max, Replies(xs, answers, max)[k])
  {
    ReplyAnswers(xs[k].q, Head(DropAnswers(answers, Reads(xs[..k], max))), max);
    hide ReplyTo, Head, Answers;
    var q := xs[0].q;
    if k == 0 {
      assert xs[..0] == [];
    } else {
      ReplyIs(xs[1..], Left(q, answers, max), max, k - 1);
      assert xs[..k][1..] == xs[1..][..k - 1] && xs[..k][0] == xs[0];
      DropLeft(q, answers, max, Reads(xs[1..][..k - 1], max));
    }
  }

  /** So on a well-formed stream no request goes without a reply, none gets two, and each gets its own. */
  lemma OneReplyEach(xs: seq<Exchange>, answers: seq<Answer>, max: nat)
    requires Valids(xs) && AllFit(xs, max) && NoDisc(xs)
    ensures var rs := Serve(Stream(xs), answers, max).replies;
            && |rs| == |xs| && rs == Replies(xs, answers, max)
            && forall k :: 0 <= k < |xs| ==>
                 && rs[k].handle == xs[k].q.handle
                 && Answers(xs[k].q, Head(DropAnswers(answers, Reads(xs[..k], max))), max, rs[k])
  {
    hide Head, Serve, Stream, DropAnswers, Reads;
    ServeStream(xs, [], answers, max);
    assert Stream(xs) + [] == Stream(xs);
    assert Serve([], DropAnswers(answers, Reads(xs, max)), max) == Outcome([], []) by { ServeNothing(DropAnswers(answers, Reads(xs, max)), max); }
    var rs := Replies(xs, answers, max);
    assert rs + [] == rs;
    forall k | 0 <= k < |xs|
      ensures Answers(xs[k].q, Head(DropAnswers(answers, Reads(xs[..k], max))), max, rs[k])
    {
      ReplyIs(xs, answers, max, k);
    }
  }

  lemma ServeNothing(answers: seq<Answer>, max: nat)
    ensures Serve([], answers, max) == Outcome([], [])
  {
  }

  lemma DropLeft(q: Request, answers: seq<Answer>, max: nat, n: nat)
    ensures DropAnswers(Left(q, answers, max), n) == DropAnswers(answers, n + if Asks(q, max) then 1 else 0)
  {
  }

  /** A disconnect ends the conversation without a reply; whatever was sent after it is not looked at. */
  lemma DiscEnds(xs: seq<Exchange>, disc: Exchange, tail: seq<byte>, answers: seq<Answer>, max: nat)
    requires Valids(xs) && AllFit(xs, max) && NoDisc(xs) && disc.Valid() && disc.q.typ == CMD_DISC
    ensures Serve(Stream(xs) + (EncodeRequest(disc.q) + tail), answers, max)
            == Outcome(Replies(xs, answers, max), AllAsked(xs, max))
  {
    hide EncodeRequest, ParseRequest;
    var end := EncodeRequest(disc.q) + tail;
    ServeStream(xs, end, answers, max);
    assert disc.payload == [] && EncodeRequest(disc.q) + disc.payload + tail == end;
    ServeFirst(disc, tail, DropAnswers(answers, Reads(xs, max)), max);
  }

  /** So do bytes that are no request: nothing after them is looked at. */
  lemma GarbageEnds(xs: seq<Exchange>, tail: seq<byte>, answers: seq<Answer>, max: nat)
    requires Valids(xs) && AllFit(xs, max) && NoDisc(xs)
    requires |tail| >= REQUEST_LEN ==> tail[..4] != [0x25, 0x60, 0x95, 0x13]
    ensures Serve(Stream(xs) + tail, answers, max) == Outcome(Replies(xs, answers, max), AllAsked(xs, max))
  {
    hide EncodeRequest, ParseRequest;
    if |tail| >= REQUEST_LEN {
      ParsesIff(tail[..REQUEST_LEN]);
      assert tail[..4] == [tail[0], tail[1], tail[2], tail[3]];
    }
    ServeStream(xs, tail, answers, max);
  }

  // ---- the client's side ----

  /** What a client that knows its requests has in hand after the bytes b: per request a header and, after a successful
      read, its payload, as far as they are complete and in order. */
  function Delivered(xs: seq<Exchange>, b: seq<byte>): seq<Reply> {
    if xs == [] || |b| < REPLY_LEN || FromBE(b[..4]) != REPLY_MAGIC || b[8..16] != xs[0].q.handle then []
    else
      Pow256Values();
      var errno := FromBE(b[4..8]);
      var n := if errno == 0 && xs[0].q.typ == CMD_READ then xs[0].q.length else 0;
      if |b| - REPLY_LEN < n then []
      else [Reply(b[8..16], errno, b[REPLY_LEN..REPLY_LEN + n])] + Delivered(xs[1..], b[REPLY_LEN + n..])
  }

  lemma HeaderFields(handle: seq<byte>, errno: uint32, more: seq<byte>)
    requires |handle| == 8
    ensures var b := Header(handle, errno) + more;
            FromBE(b[..4]) == REPLY_MAGIC && FromBE(b[4..8]) == errno && b[8..16] == handle && b[REPLY_LEN..] == more
  {
    hide BE, FromBE, Pow256;
    Pow256Values();
    FromBEofBE(REPLY_MAGIC, 4);
    FromBEofBE(errno, 4);
    var b := Header(handle, errno) + more;
    assert b[..4] == BE(REPLY_MAGIC, 4) && b[4..8] == BE(errno, 4);
  }

  /** One reply off the front of the client's stream. */
  lemma DeliveredFirst(xs: seq<Exchange>, r: Reply, b: seq<byte>, more: seq<byte>)
    requires xs != [] && r.handle == xs[0].q.handle && |r.handle| == 8 && b <= EncodeReply(r) + more
    requires |r.payload| == if r.errno == 0 && xs[0].q.typ == CMD_READ then xs[0].q.length else 0
    ensures var n := |EncodeReply(r)|;
            Delivered(xs, b) == if |b| < n then [] else [r] + Delivered(xs[1..], b[n..])
    ensures |b| >= |EncodeReply(r)| ==> b == EncodeReply(r) + b[|EncodeReply(r)|..] && b[|EncodeReply(r)|..] <= more
  {
    hide Header, FromBE, BE;
    var whole := EncodeReply(r) + more;
    assert whole == Header(r.handle, r.errno) + (r.payload + more);
    if |b| >= REPLY_LEN {
      assert b == Header(r.handle, r.errno) + b[REPLY_LEN..];
      HeaderFields(r.handle, r.errno, b[REPLY_LEN..]);
      var n := |r.payload|;
      if |b| - REPLY_LEN >= n {
        assert b[REPLY_LEN..REPLY_LEN + n] == r.payload;
      }
    }
  }

  lemma WireFirst(rs: seq<Reply>)
    requires rs != [] && Handles(rs)
    ensures Wire(rs) == EncodeReply(rs[0]) + Wire(rs[1..])
  {
    hide EncodeReply;
    WireSplit([rs[0]], rs[1..]);
    assert [rs[0]] + rs[1..] == rs && [rs[0]][..0] == [];
    assert Wire([rs[0]]) == Wire([]) + EncodeReply(rs[0]);
  }

  /** got is as many of the replies rs as are complete in b. */
  predicate Complete(rs: seq<Reply>, got: seq<Reply>, b: seq<byte>)
    requires Handles(rs)
  {
    && got <= rs && Wire(got) <= b
    && (|got| < |rs| ==> |b| < |Wire(rs[..|got| + 1])|)
  }

  lemma CompleteNone(rs: seq<Reply>, b: seq<byte>)
    requires rs != [] && Handles(rs) && |b| < |EncodeReply(rs[0])|
    ensures Complete(rs, [], b)
  {
    hide EncodeReply;
    OneWire(rs[0]);
    assert rs[..1] == [rs[0]];
  }

  lemma CompleteMore(rs: seq<Reply>, more: seq<Reply>, b: seq<byte>)
    requires rs != [] && Handles(rs) && Complete(rs[1..], more, b)
    ensures Complete(rs, [rs[0]] + more, EncodeReply(rs[0]) + b)
  {
    hide EncodeReply, Wire;
    var got := [rs[0]] + more;
    assert got[1..] == more;
    WireFirst(got);
    if |more| < |rs[1..]| {
      assert rs[..|got| + 1][1..] == rs[1..][..|more| + 1];
      WireFirst(rs[..|got| + 1]);
    }
  }

  /** Round trip, also for a stream cut off anywhere: the reply bytes, read back by the client, are the replies one by one,
      as many as are complete. */
  lemma {:induction false} ClientReadsItsReplies(xs: seq<Exchange>, answers: seq<Answer>, max: nat, b: seq<byte>)
    requires Valids(xs) && b <= Wire(Replies(xs, answers, max))
    ensures var rs := Replies(xs, answers, max);
            Complete(rs, Delivered(xs, b), b) && (b == Wire(rs) ==> Delivered(xs, b) == rs)
  {
    if xs != [] {
      hide EncodeReply, Delivered, Wire, Complete;
      var left := Left(xs[0].q, answers, max);
      var rs, rest := Replies(xs, answers, max), Replies(xs[1..], left, max);
      assert rs == [rs[0]] + rest && rs[1..] == rest;
      WireFirst(rs);
      DeliveredFirst(xs, rs[0], b, Wire(rest));
      var n := |EncodeReply(rs[0])|;
      if |b| < n {
        CompleteNone(rs, b);
      } else {
        ClientReadsItsReplies(xs[1..], left, max, b[n..]);
        CompleteMore(rs, Delivered(xs[1..], b[n..]), b[n..]);
      }
    }
  }

  lemma OneWire(r: Reply)
    requires |r.handle| == 8
    ensures Wire([r]) == EncodeReply(r) && Wire([]) == []
  {
    assert [r][..0] == [];
  }

  // ---- a write that does not fit ----

  /** Where the next request is looked for: after the payload exactly when the payload fits the scratch buffer. An
      oversized write is refused but not drained, so its payload is taken for requests. */
  lemma WriteBoundary(x: Exchange, tail: seq<byte>, answers: seq<Answer>, max: nat)
    requires x.Valid() && x.q.typ == CMD_WRITE
    ensures var o := Serve(EncodeRequest(x.q) + (x.payload + tail), answers, max);
            var next := Serve(if x.q.length <= max then tail else x.payload + tail, answers, max);
            o == Before([Reply(x.q.handle, EPERM, [])], [], next)
  {
    hide EncodeRequest, ParseRequest;
    var s := EncodeRequest(x.q) + (x.payload + tail);
    ParseOfEncode(x.q);
    assert s[..REQUEST_LEN] == EncodeRequest(x.q);
    assert s[REQUEST_LEN..] == x.payload + tail;
    assert Dropped(x.payload + tail, |x.payload|) == tail;
  }

  /** So a payload that happens to hold a request gets it served: a reply the client never asked for. */
  lemma OversizedWriteIsParsed(x: Exchange, q: Request, pad: seq<byte>, tail: seq<byte>, answers: seq<Answer>, max: nat)
    requires x.Valid() && x.q.typ == CMD_WRITE && x.q.length > max
    requires q.Valid() && q.typ == CMD_FLUSH && x.payload == EncodeRequest(q) + pad
    ensures var o := Serve(EncodeRequest(x.q) + (x.payload + tail), answers, max);
            |o.replies| >= 2 && o.replies[1] == Reply(q.handle, 0, [])
  {
    hide EncodeRequest, ParseRequest, Serve, Stream;
    WriteBoundary(x, tail, answers, max);
    assert x.payload + tail == EncodeRequest(q) + [] + (pad + tail);
    ServeFirst(Exchange(q, []), pad + tail, answers, max);
  }
}
