/** The NBD serve loop over a socket that reads and writes partially, is interrupted and breaks
    (nbdstream/server_linux.go). */
module NbdServer {
  import opened Bytes
  import opened NbdWire
  import Resolvers

  datatype Errno = Ok | EINTR | Fatal

  /** The server's end of the socket pair: what has still to arrive, what was sent, and the signals still to come. A
      read error ends the incoming stream. */
  class Socket {
    var input: seq<byte>
    var output: seq<byte>
    var signals: nat
    var broken: bool

    /** read(2) into b[lo..hi]: any positive part of what is there, nothing at end of stream, or an error. */
    method Read(b: array<byte>, lo: nat, hi: nat) returns (m: nat, e: Errno)
      requires lo < hi <= b.Length
      modifies this, b
      ensures output == old(output) && (old(broken) ==> broken)
      ensures forall k :: 0 <= k < lo || hi <= k < b.Length ==> b[k] == old(b[k])
      ensures e.Ok? ==>
        && m <= hi - lo && m <= |old(input)| && (m == 0 <==> old(input) == [])
        && input == old(input)[m..] && signals == old(signals) && broken == old(broken)
        && b[lo..lo + m] == old(input)[..m]
      ensures e.EINTR? ==> signals < old(signals) && input == old(input) && broken == old(broken)
      ensures e.Fatal? ==> broken && input == []
    {
      m := 0;
      var interrupted: bool, fails: bool := *, *;
      if interrupted && signals > 0 {
        signals := signals - 1;
        e := EINTR;
      } else if fails {
        broken, input := true, [];
        e := Fatal;
      } else if input == [] {
        e := Ok;
      } else {
        var part: nat := *;
        m := if 1 <= part <= Min(hi - lo, |input|) then part else 1;
        for k := 0 to m
          invariant forall j :: 0 <= j < lo || lo + k <= j < b.Length ==> b[j] == old(b[j])
          invariant input == old(input) && m <= |input| && b[lo..lo + k] == input[..k]
          invariant output == old(output) && signals == old(signals) && broken == old(broken)
        {
          b[lo + k] := input[k];
        }
        assert b[lo..lo + m] == old(input)[..m];
        input := input[m..];
        e := Ok;
      }
      assert forall k :: 0 <= k < lo || hi <= k < b.Length ==> b[k] == old(b[k]);
    }

    /** write(2) from b[lo..hi]: any positive part is sent, or an error after perhaps some of it was. */
    method Write(b: array<byte>, lo: nat, hi: nat) returns (m: nat, e: Errno)
      requires lo < hi <= b.Length
      modifies this
      ensures input == old(input) && (old(broken) ==> broken)
      ensures m <= hi - lo && (!e.Fatal? ==> output == old(output) + b[lo..lo + m])
      ensures e.Ok? ==> m > 0 && signals == old(signals) && broken == old(broken)
      ensures e.EINTR? ==> m == 0 && signals < old(signals) && broken == old(broken)
      ensures e.Fatal? ==> broken && output == old(output) + b[lo..lo + m]
    {
      var interrupted: bool, fails: bool, part: nat := *, *, *;
      if interrupted && signals > 0 {
        signals := signals - 1;
        m, e := 0, EINTR;
        assert b[lo..lo] == [];
      } else if fails {
        m, e := if part <= hi - lo then part else 0, Fatal;
        broken := true;
      } else {
        m, e := if 1 <= part <= hi - lo then part else 1, Ok;
      }
      output := output + b[lo..lo + m];
    }
  }

  /** readFull: all of b[..n], or the stream ended or broke first. */
  method ReadFull(s: Socket, b: array<byte>, n: nat) returns (ok: bool)
    requires n <= b.Length
    modifies s, b
    ensures s.output == old(s.output) && (old(s.broken) ==> s.broken)
    ensures forall k :: n <= k < b.Length ==> b[k] == old(b[k])
    ensures ok ==> |old(s.input)| >= n && b[..n] == old(s.input)[..n] && s.input == old(s.input)[n..] && s.broken == old(s.broken)
    ensures !ok ==> s.input == [] && (|old(s.input)| < n || s.broken)
  {
    var got: nat := 0;
    while got < n
      invariant got <= n && got <= |old(s.input)| && s.input == old(s.input)[got..] && b[..got] == old(s.input)[..got]
      invariant s.output == old(s.output) && s.broken == old(s.broken)
      invariant forall k :: n <= k < b.Length ==> b[k] == old(b[k])
      decreases n - got, s.signals
    {
      ghost var have := b[..got];
      var m, e := s.Read(b, got, n);
      assert b[..got] == have;
      if e.EINTR? {
        continue;
      }
      if e.Fatal? || m == 0 {
        return false;
      }
      assert b[..got + m] == b[..got] + b[got..got + m];
      assert old(s.input)[..got + m] == old(s.input)[..got] + old(s.input)[got..][..m];
      got := got + m;
    }
    ok := true;
  }

  /** writeFull: all of b[..n], or the socket broke after some prefix of it. */
  method WriteFull(s: Socket, b: array<byte>, n: nat) returns (ok: bool)
    requires n <= b.Length
    modifies s
    ensures s.input == old(s.input) && (old(s.broken) ==> s.broken)
    ensures ok ==> s.output == old(s.output) + b[..n] && s.broken == old(s.broken)
    ensures !ok ==> s.broken && exists j :: 0 <= j <= n && s.output == old(s.output) + b[..j]
  {
    var sent: nat := 0;
    while sent < n
      invariant sent <= n && s.output == old(s.output) + b[..sent]
      invariant s.input == old(s.input) && s.broken == old(s.broken)
      decreases n - sent, s.signals
    {
      var m, e := s.Write(b, sent, n);
      assert b[..sent + m] == b[..sent] + b[sent..sent + m];
      if e.EINTR? {
        continue;
      }
      if e.Fatal? {
        assert s.output == old(s.output) + b[..sent + m];
        return false;
      }
      sent := sent + m;
    }
    ok := true;
  }

  /** What the server reads from: the device's resolver, or anything else. */
  datatype Origin = Device(resolver: Resolvers.Resolver) | Other

  /** An answer a resolver over this image may give: the image's bytes, as many as there are. */
  predicate Honest(image: seq<byte>, ask: (int, nat), a: Answer) {
    a.Got? ==> 0 <= ask.0 < |image| && a.bytes == image[ask.0..ask.0 + Min(ask.1, |image| - ask.0)]
  }

  ghost predicate AllHonest(image: seq<byte>, asks: seq<(int, nat)>, answers: seq<Answer>) {
    |asks| == |answers| && forall k :: 0 <= k < |asks| ==> Honest(image, asks[k], answers[k])
  }

  /** Every call inside the image was answered. */
  ghost predicate AllAnswered(image: seq<byte>, asks: seq<(int, nat)>, answers: seq<Answer>) {
    |asks| == |answers| && forall k :: 0 <= k < |asks| && 0 <= asks[k].0 < |image| ==> answers[k].Got?
  }

  /** The backend with a record of what it was asked and what it gave. */
  class Backend {
    const origin: Origin
    var given: seq<Answer>
    var asked: seq<(int, nat)>

    constructor (origin: Origin)
      ensures this.origin == origin && given == [] && asked == []
    {
      this.origin, given, asked := origin, [], [];
    }

    ghost function Repr(): set<object> {
      if origin.Device? then {this} + origin.resolver.Repr() else {this}
    }

    /** How often the outside has failed the device so far. */
    ghost function Faults(): nat
      reads Repr()
    {
      if origin.Device? then origin.resolver.faults else 0
    }

    /** a is a failure, of a call inside the image. */
    ghost predicate Refused(off: int, a: Answer) { origin.Device? && a.Fail? && 0 <= off < |origin.resolver.image| }

    ghost predicate Valid()
      reads Repr()
    {
      origin.Device? ==> origin.resolver.Valid()
    }

    /** One read. A device answers with the image's bytes or fails, inside the image only if the outside failed it; anything
        else may answer anything. */
    method ReadAt(buf: array<byte>, len: nat, off: int) returns (n: nat, err: bool, a: Answer)
      requires Valid() && len <= buf.Length && buf !in Repr()
      modifies Repr(), buf
      ensures Valid() && given == old(given) + [a] && asked == old(asked) + [(off, len)]
      ensures if a.Fail? then err else !err && n == Min(|a.bytes|, len) && buf[..n] == a.bytes[..n]
      ensures origin.Device? ==> Honest(origin.resolver.image, (off, len), a)
      ensures Faults() >= old(Faults()) && (Refused(off, a) ==> Faults() > old(Faults()))
    {
      a := Fetch(len, off);
      err := a.Fail?;
      var bytes := if err then a.left else a.bytes;
      given, asked := given + [a], asked + [(off, len)];
      n := Min(|bytes|, len);
      for k := 0 to n
        modifies buf
        invariant buf[..k] == bytes[..k]
      {
        buf[k] := bytes[k];
      }
    }

    /** What the origin has to say. */
    method Fetch(len: nat, off: int) returns (a: Answer)
      requires Valid()
      modifies Repr() - {this}
      ensures Valid()
      ensures origin.Device? ==> Honest(origin.resolver.image, (off, len), a)
      ensures Faults() >= old(Faults()) && (Refused(off, a) ==> Faults() > old(Faults()))
    {
      hide Resolvers.Resolver.Valid;
      match origin {
        case Device(resolver) =>
          var p, patience := new byte[len](_ => 0), 0;
          patience := *;
          var m, r := resolver.ReadAt(p, off, if patience < 0 then 0 else patience);
          ImageSize(resolver);
          a := if r.Err? then Fail(p[..]) else Got(p[..m]);
        case Other =>
          a := *;
      }
    }
  }

  lemma ImageSize(r: Resolvers.Resolver)
    requires r.Valid()
    ensures |r.image| == r.h.totalSize
  {
  }

  function PutBE(v: uint32): (b: seq<byte>)
    ensures |b| == 4
  {
    BE(v, 4)
  }

  lemma PrefixOf(a: seq<byte>, b: seq<byte>, j: nat, c: seq<byte>)
    requires j <= |b|
    ensures a <= a + b[..j] <= a + (b + c)
  {
    assert a + (b + c) == (a + b[..j]) + (b[j..] + c);
  }

  /** Where a conversation begins. */
  datatype Opening = Opening(input: seq<byte>, output: seq<byte>, completed: nat, asked: seq<(int, nat)>, given: seq<Answer>,
                             faults: nat)

  class Server {
    const sock: Socket
    const backend: Backend
    const max: nat
    var closed: bool
    var pending: int
    /** How often the progress clock was stamped. */
    var completed: nat

    constructor (sock: Socket, backend: Backend, max: nat)
      ensures this.sock == sock && this.backend == backend && this.max == max
      ensures !closed && pending == 0 && completed == 0
    {
      this.sock, this.backend, this.max := sock, backend, max;
      closed, pending, completed := false, 0, 0;
    }

    /** The server and its socket are no part of what the backend changes. */
    ghost predicate Apart() { this !in backend.Repr() && sock !in backend.Repr() }

    method Stop()
      modifies this`closed
      ensures closed
    {
      closed := true;
    }

    /** The request was answered: stamp the clock, clear the count; a failed socket write is fatal. */
    method Complete(sent: bool) returns (fatal: bool)
      modifies this`closed, this`pending, this`completed
      ensures completed == old(completed) + 1 && pending == old(pending) - 1
      ensures fatal == !sent && closed == (old(closed) || fatal)
    {
      completed := completed + 1;
      pending := pending - 1;
      if !sent {
        Stop();
      }
      fatal := !sent;
    }

    /** A read is good only if the backend filled the buffer. */
    method ServeRead(buf: array<byte>, len: nat, off: int) returns (ok: bool, a: Answer)
      requires backend.Valid() && len <= buf.Length && buf !in backend.Repr()
      modifies backend.Repr(), buf
      ensures backend.Valid() && backend.given == old(backend.given) + [a] && backend.asked == old(backend.asked) + [(off, len)]
      ensures ok == (a.Got? && |a.bytes| >= len) && (ok ==> buf[..len] == a.bytes[..len])
      ensures backend.origin.Device? ==>
        var image := backend.origin.resolver.image;
        Honest(image, (off, len), a) && (ok ==> 0 <= off && off + len <= |image| && buf[..len] == image[off..off + len])
      ensures backend.Faults() >= old(backend.Faults()) && (backend.Refused(off, a) ==> backend.Faults() > old(backend.Faults()))
    {
      var n, err;
      n, err, a := backend.ReadAt(buf, len, off);
      ok := !err && n >= len;
    }

    method FillHeader(req: array<byte>, errno: uint32) returns (hdr: array<byte>)
      requires req.Length == REQUEST_LEN
      ensures fresh(hdr) && hdr.Length == REPLY_LEN && hdr[..] == Header(req[8..16], errno)
    {
      hide BE;
      hdr := new byte[REPLY_LEN](_ => 0);
      var magic, code := PutBE(REPLY_MAGIC), PutBE(errno);
      forall k | 0 <= k < 4 { hdr[k] := magic[k]; }
      forall k | 0 <= k < 4 { hdr[4 + k] := code[k]; }
      forall k | 0 <= k < 8 { hdr[8 + k] := req[8 + k]; }
      assert hdr[..] == magic + code + req[8..16];
    }

    /** Header, then payload b[..len]; the handle is still in the request buffer. */
    method SendReply(req: array<byte>, errno: uint32, b: array<byte>, len: nat) returns (ok: bool)
      requires req.Length == REQUEST_LEN && len <= b.Length
      modifies sock
      ensures sock.input == old(sock.input) && (old(sock.broken) ==> sock.broken)
      ensures var r := Reply(req[8..16], errno, b[..len]);
              if ok then sock.output == old(sock.output) + EncodeReply(r) && sock.broken == old(sock.broken)
              else sock.broken && old(sock.output) <= sock.output <= old(sock.output) + EncodeReply(r)
    {
      hide Header;
      var hdr := FillHeader(req, errno);
      ghost var head, body := Header(req[8..16], errno), b[..len];
      assert hdr[..REPLY_LEN] == head;
      ok := WriteFull(sock, hdr, REPLY_LEN);
      if !ok {
        ghost var j :| 0 <= j <= REPLY_LEN && sock.output == old(sock.output) + hdr[..j];
        PrefixOf(old(sock.output), head, j, body);
      } else if len > 0 {
        ok := WriteFull(sock, b, len);
        Assoc(old(sock.output), head, body);
        if !ok {
          ghost var j :| 0 <= j <= len && sock.output == old(sock.output) + head + b[..j];
          assert b[..j] == body[..j];
          PrefixOf(old(sock.output) + head, body, j, []);
        }
      } else {
        assert head + body == head;
      }
    }

    /** The read arm of the switch. */
    method AnswerRead(q: Request, req: array<byte>, data: array<byte>) returns (sent: bool, a: NbdWire.Answer)
      requires req.Length == REQUEST_LEN && data.Length == max && req != data && q.handle == req[8..16] && q.typ == CMD_READ
      requires Apart() && backend.Valid() && req !in backend.Repr() && data !in backend.Repr()
      modifies sock, backend.Repr(), data
      ensures backend.Valid() && backend.asked == old(backend.asked) + Asked(q, max)
      ensures backend.given == old(backend.given) + if Asks(q, max) then [a] else []
      ensures backend.origin.Device? && Asks(q, max) ==> Honest(backend.origin.resolver.image, Asked(q, max)[0], a)
      ensures backend.Faults() >= old(backend.Faults())
      ensures Asks(q, max) && backend.Refused(Asked(q, max)[0].0, a) ==> backend.Faults() > old(backend.Faults())
      ensures sock.input == old(sock.input) && (old(sock.broken) ==> sock.broken)
      ensures var r := ReplyTo(q, a, max);
              if sent then sock.output == old(sock.output) + EncodeReply(r) && sock.broken == old(sock.broken)
              else sock.broken && old(sock.output) <= sock.output <= old(sock.output) + EncodeReply(r)
    {
      hide EncodeReply, Honest, Resolvers.Resolver.Valid;
      var none := new byte[0];
      a := Fail([]);
      if q.length > data.Length {
        sent := SendReply(req, EIO, none, 0);
      } else {
        var ok;
        ok, a := ServeRead(data, q.length, ToInt64(q.offset));
        if ok {
          sent := SendReply(req, 0, data, q.length);
        } else {
          sent := SendReply(req, EIO, none, 0);
        }
      }
    }

    /** One accepted request, from pending to answered. */
    method Answer(q: Request, req: array<byte>, data: array<byte>, scratch: array<byte>) returns (fatal: bool, a: NbdWire.Answer)
      requires req.Length == REQUEST_LEN && data.Length == max && scratch.Length == max && req != data && req != scratch
      requires q.handle == req[8..16] && q.typ != CMD_DISC && Apart() && backend.Valid()
      requires req !in backend.Repr() && data !in backend.Repr() && scratch !in backend.Repr()
      modifies this`closed, this`pending, this`completed, sock, backend.Repr(), data, scratch
      ensures pending == old(pending) - 1 && completed == old(completed) + 1 && (fatal ==> sock.broken && closed)
      ensures old(sock.broken) ==> sock.broken
      ensures backend.Valid() && backend.asked == old(backend.asked) + Asked(q, max)
      ensures backend.given == old(backend.given) + if Asks(q, max) then [a] else []
      ensures backend.origin.Device? && Asks(q, max) ==> Honest(backend.origin.resolver.image, Asked(q, max)[0], a)
      ensures backend.Faults() >= old(backend.Faults())
      ensures Asks(q, max) && backend.Refused(Asked(q, max)[0].0, a) ==> backend.Faults() > old(backend.Faults())
      ensures !sock.broken ==> sock.input == Dropped(old(sock.input), Drained(q, max))
      ensures sock.broken && !fatal && !old(sock.broken) ==> sock.input == []
      ensures var r := ReplyTo(q, a, max);
              if fatal then old(sock.output) <= sock.output <= old(sock.output) + EncodeReply(r)
              else sock.output == old(sock.output) + EncodeReply(r)
    {
      hide EncodeReply, Honest, Resolvers.Resolver.Valid;
      var none := new byte[0];
      var sent: bool;
      a := Fail([]);
      if q.typ == CMD_READ {
        sent, a := AnswerRead(q, req, data);
      } else if q.typ == CMD_WRITE {
        if q.length <= scratch.Length {
          var _ := ReadFull(sock, scratch, q.length);
        }
        sent := SendReply(req, EPERM, none, 0);
      } else if q.typ == CMD_FLUSH || q.typ == CMD_TRIM {
        sent := SendReply(req, 0, none, 0);
      } else {
        sent := SendReply(req, EPERM, none, 0);
      }
      fatal := Complete(sent);
    }

    /** The head of the loop: the next request, or the reason to stop. */
    method NextRequest(req: array<byte>) returns (q: Option<Request>)
      requires req.Length == REQUEST_LEN
      modifies this`closed, sock, req
      ensures sock.output == old(sock.output) && (old(sock.broken) ==> sock.broken)
      ensures q.Some? ==>
        && sock.broken == old(sock.broken) && Next(old(sock.input), q.value)
        && sock.input == old(sock.input)[REQUEST_LEN..] && q.value.handle == req[8..16]
      ensures q.None? ==> closed && (sock.broken || Ends(old(sock.input)))
    {
      q := None;
      var ok := ReadFull(sock, req, REQUEST_LEN);
      if ok {
        assert req[..] == old(sock.input)[..REQUEST_LEN];
        var p := ParseRequest(req[..]);
        if p.Some? && p.value.typ != CMD_DISC {
          ParsedHandle(req[..], p.value);
          assert req[..][8..16] == req[8..16];
          return p;
        }
      }
      Stop();
    }

    ghost function Opened(): Opening
      reads this, sock, backend.Repr()
    {
      Opening(sock.input, sock.output, completed, backend.asked, backend.given, backend.Faults())
    }

    /** Between two requests of a conversation that began at `o`: what was sent, asked and answered so far. */
    ghost predicate Midway(o: Opening, log: seq<NbdWire.Answer>, done: seq<Reply>, asks: seq<(int, nat)>)
      reads this, sock, backend.Repr()
    {
      && pending == 0 && completed == o.completed + |done| && backend.Valid()
      && Handles(done) && sock.output == o.output + Wire(done)
      && backend.asked == o.asked + asks && backend.given == o.given + log
      && Dealt(backend.origin, o.faults, backend.Faults(), asks, log)
      && Begun(o.input, log, done, asks, max)
      && if sock.broken then sock.input == [] else SoFar(o.input, log, done, asks, sock.input, max)
    }

    /** How the conversation ends: see Serve. */
    ghost predicate Over(o: Opening, log: seq<NbdWire.Answer>, asks: seq<(int, nat)>)
      reads this, sock, backend.Repr()
    {
      var all := NbdWire.Serve(o.input, log, max);
      && closed && pending == 0 && backend.Valid()
      && backend.asked == o.asked + asks && backend.given == o.given + log
      && Dealt(backend.origin, o.faults, backend.Faults(), asks, log)
      && o.output <= sock.output <= o.output + Wire(all.replies) && asks <= all.asks
      && (!sock.broken ==> sock.output == o.output + Wire(all.replies) && asks == all.asks && completed == o.completed + |all.replies|)
    }

    /** One turn of the loop: the next request is answered, or the conversation is over. */
    method Turn(req: array<byte>, data: array<byte>, scratch: array<byte>, ghost o: Opening, ghost done: seq<Reply>,
                log: seq<NbdWire.Answer>, asks: seq<(int, nat)>)
      returns (stop: bool, log': seq<NbdWire.Answer>, asks': seq<(int, nat)>, ghost done': seq<Reply>)
      requires req.Length == REQUEST_LEN && data.Length == max && scratch.Length == max && req != data && req != scratch
      requires Apart() && req !in backend.Repr() && data !in backend.Repr() && scratch !in backend.Repr()
      requires Midway(o, log, done, asks)
      modifies this`closed, this`pending, this`completed, sock, backend.Repr(), req, data, scratch
      ensures if stop then Over(o, log', asks') else Midway(o, log', done', asks') && |sock.input| < |old(sock.input)|
    {
      hide NbdWire.Serve, ParseRequest, EncodeReply, Wire, ReplyTo, Left, Asked, Head, Before, SoFar, Begun, Honest, AllHonest,
           AllAnswered, Dealt, Backend.Refused, Resolvers.Resolver.Valid, Drained, Next, Ends;
      ghost var input := sock.input;
      stop, log', asks', done' := true, log, asks, done;
      SentSoFar(o.output, o.input, log, done, asks, max);
      var next := NextRequest(req);
      if next.None? {
        if !sock.broken {
          ServeEnds(o.input, log, done, asks, input, max);
        }
        return;
      }
      var q := next.value;
      NextFacts(input, q);
      pending := pending + 1;
      ghost var before := backend.Faults();
      var fatal, a := Answer(q, req, data, scratch);
      RoundOver(o.output, o.input, log, done, asks, input, max, q, a);
      DealtGrows(backend, o.faults, before, backend.Faults(), asks, log, q, a, max);
      done', asks', log' := done + [ReplyTo(q, a, max)], asks + Asked(q, max), log + if Asks(q, max) then [a] else [];
      if fatal {
        SentSoFar(o.output, o.input, log', done', asks', max);
      }
      stop := fatal;
    }

    /** serve: whatever the socket does, what was sent is a prefix of the conversation's replies, and the backend was asked
        for its reads in order; unless the socket broke, it is all of them, and the clock was stamped once a reply.
        Over a device every answer used is an honest one, and if the outside never failed it, every read inside the image
        was answered. Nothing is pending between requests or at the end. */
    method Serve() returns (log: seq<NbdWire.Answer>, asks: seq<(int, nat)>)
      requires pending == 0 && !sock.broken && Apart() && backend.Valid()
      modifies this`closed, this`pending, this`completed, sock, backend.Repr()
      ensures closed && pending == 0 && backend.Valid()
      ensures backend.given == old(backend.given) + log && backend.asked == old(backend.asked) + asks
      ensures Dealt(backend.origin, old(backend.Faults()), backend.Faults(), asks, log)
      ensures var o := NbdWire.Serve(old(sock.input), log, max);
              && old(sock.output) <= sock.output <= old(sock.output) + Wire(o.replies) && asks <= o.asks
              && (!sock.broken ==>
                    sock.output == old(sock.output) + Wire(o.replies) && asks == o.asks && completed == old(completed) + |o.replies|)
    {
      hide NbdWire.Serve, Wire, SoFar, Begun, Dealt, Resolvers.Resolver.Valid, Midway;
      var req := new byte[REQUEST_LEN](_ => 0);
      var data := new byte[max](_ => 0);
      var scratch := new byte[max](_ => 0);
      ghost var o, done := Opened(), [];
      log, asks := [], [];
      AtStart(o);
      var stop := false;
      while !stop
        invariant if stop then Over(o, log, asks) else Midway(o, log, done, asks)
        decreases !stop, |sock.input|
      {
        stop, log, asks, done := Turn(req, data, scratch, o, done, log, asks);
      }
    }

    lemma AtStart(o: Opening)
      requires pending == 0 && !sock.broken && backend.Valid() && o == Opened()
      ensures Midway(o, [], [], [])
    {
      hide NbdWire.Serve, SoFar, Begun, Dealt, Resolvers.Resolver.Valid;
      Start(o.output, o.input, max, backend.origin, backend.Faults());
    }
  }

  predicate Next(input: seq<byte>, q: Request) {
    |input| >= REQUEST_LEN && ParseRequest(input[..REQUEST_LEN]) == Some(q) && q.typ != CMD_DISC
  }

  /** The stream ends, or goes wrong, or says goodbye here. */
  predicate Ends(input: seq<byte>) {
    |input| < REQUEST_LEN || (var p := ParseRequest(input[..REQUEST_LEN]); p.None? || p.value.typ == CMD_DISC)
  }

  lemma NextFacts(input: seq<byte>, q: Request)
    requires Next(input, q)
    ensures |input| >= REQUEST_LEN && q.typ != CMD_DISC
  {
  }

  /** With `log` given so far, `done` and `asks` are what the conversation has come to, whatever is answered later. */
  ghost predicate SoFar(first: seq<byte>, log: seq<Answer>, done: seq<Reply>, asks: seq<(int, nat)>, input: seq<byte>, max: nat) {
    forall later: seq<Answer> :: NbdWire.Serve(first, log + later, max) == Before(done, asks, NbdWire.Serve(input, later, max))
  }

  /** done and asks are the beginning of the conversation that log makes. */
  ghost predicate Begun(first: seq<byte>, log: seq<Answer>, done: seq<Reply>, asks: seq<(int, nat)>, max: nat) {
    var o := NbdWire.Serve(first, log, max);
    done <= o.replies && asks <= o.asks
  }

  lemma SentSoFar(out: seq<byte>, first: seq<byte>, log: seq<Answer>, done: seq<Reply>, asks: seq<(int, nat)>, max: nat)
    requires Begun(first, log, done, asks, max)
    ensures var o := NbdWire.Serve(first, log, max);
            Handles(done) && out <= out + Wire(done) <= out + Wire(o.replies) && asks <= o.asks
  {
    hide NbdWire.Serve;
    WirePrefix(out, done, NbdWire.Serve(first, log, max).replies);
  }

  /** Over a device, the answers so far are honest, and unless the outside has failed it since, no call inside the image
      went without one. */
  ghost predicate Dealt(origin: Origin, was: nat, faults: nat, asks: seq<(int, nat)>, log: seq<Answer>) {
    origin.Device? ==>
      && AllHonest(origin.resolver.image, asks, log)
      && faults >= was && (faults == was ==> AllAnswered(origin.resolver.image, asks, log))
  }

  lemma DealtGrows(backend: Backend, was: nat, before: nat, faults: nat, asks: seq<(int, nat)>, log: seq<Answer>, q: Request,
                   a: Answer, max: nat)
    requires Dealt(backend.origin, was, before, asks, log) && faults >= before
    requires backend.origin.Device? && Asks(q, max) ==> Honest(backend.origin.resolver.image, Asked(q, max)[0], a)
    requires Asks(q, max) && backend.Refused(Asked(q, max)[0].0, a) ==> faults > before
    ensures Dealt(backend.origin, was, faults, asks + Asked(q, max), log + if Asks(q, max) then [a] else [])
  {
    hide Honest;
  }

  lemma ParsedHandle(b: seq<byte>, q: Request)
    requires |b| == REQUEST_LEN && ParseRequest(b) == Some(q)
    ensures q.handle == b[8..16]
  {
  }

  lemma Start(out: seq<byte>, first: seq<byte>, max: nat, origin: Origin, faults: nat)
    ensures SoFar(first, [], [], [], first, max) && out == out + Wire([]) && Dealt(origin, faults, faults, [], []) && Begun(first, [], [], [], max)
  {
    hide NbdWire.Serve;
    forall later: seq<Answer>
      ensures NbdWire.Serve(first, [] + later, max) == Before([], [], NbdWire.Serve(first, later, max))
    {
      assert [] + later == later;
      var o := NbdWire.Serve(first, later, max);
      assert [] + o.replies == o.replies && [] + o.asks == o.asks;
    }
  }

  /** One request further. */
  lemma RoundOver(out: seq<byte>, first: seq<byte>, log: seq<Answer>, done: seq<Reply>, asks: seq<(int, nat)>, input: seq<byte>,
                  max: nat, q: Request, a: Answer)
    requires SoFar(first, log, done, asks, input, max) && Next(input, q) && Handles(done)
    ensures |input| >= REQUEST_LEN && |ReplyTo(q, a, max).handle| == 8
    ensures var (log', done', asks') :=
              (log + if Asks(q, max) then [a] else [], done + [ReplyTo(q, a, max)], asks + Asked(q, max));
            && Handles(done') && out + Wire(done') == out + Wire(done) + EncodeReply(ReplyTo(q, a, max))
            && Begun(first, log', done', asks', max)
            && SoFar(first, log', done', asks', Dropped(input[REQUEST_LEN..], Drained(q, max)), max)
  {
    hide SoFar, Begun, Wire, EncodeReply, ReplyTo, Asked, Drained, Dropped;
    SoFarGoesOn(first, log, done, asks, input, max, q, a);
    WireOneMore(out, done, ReplyTo(q, a, max));
    SoFarPrefix(first, log + if Asks(q, max) then [a] else [], done + [ReplyTo(q, a, max)], asks + Asked(q, max),
                Dropped(input[REQUEST_LEN..], Drained(q, max)), max);
  }

  lemma ServeEnds(first: seq<byte>, log: seq<Answer>, done: seq<Reply>, asks: seq<(int, nat)>, input: seq<byte>, max: nat)
    requires SoFar(first, log, done, asks, input, max)
    requires Ends(input)
    ensures NbdWire.Serve(first, log, max) == Outcome(done, asks)
  {
    hide ParseRequest;
    assert log + [] == log && done + [] == done && asks + [] == asks;
    assert NbdWire.Serve(first, log + [], max) == Before(done, asks, NbdWire.Serve(input, [], max));
  }

  lemma SoFarPrefix(first: seq<byte>, log: seq<Answer>, done: seq<Reply>, asks: seq<(int, nat)>, input: seq<byte>, max: nat)
    requires SoFar(first, log, done, asks, input, max)
    ensures Begun(first, log, done, asks, max)
  {
    hide NbdWire.Serve;
    assert log + [] == log;
    assert NbdWire.Serve(first, log + [], max) == Before(done, asks, NbdWire.Serve(input, [], max));
  }

  lemma SoFarGoesOn(first: seq<byte>, log: seq<Answer>, done: seq<Reply>, asks: seq<(int, nat)>, input: seq<byte>, max: nat,
                    q: Request, a: Answer)
    requires SoFar(first, log, done, asks, input, max)
    requires Next(input, q)
    ensures |input| >= REQUEST_LEN && |ReplyTo(q, a, max).handle| == 8
    ensures SoFar(first, log + if Asks(q, max) then [a] else [], done + [ReplyTo(q, a, max)], asks + Asked(q, max),
                  Dropped(input[REQUEST_LEN..], Drained(q, max)), max)
  {
    hide NbdWire.Serve, ParseRequest, Before, Asked;
    var g := if Asks(q, max) then [a] else [];
    ValidHandle(input, q);
    forall later: seq<Answer>
      ensures NbdWire.Serve(first, log + g + later, max)
           == Before(done + [ReplyTo(q, a, max)], asks + Asked(q, max),
                     NbdWire.Serve(Dropped(input[REQUEST_LEN..], Drained(q, max)), later, max))
    {
      Assoc(log, g, later);
      assert NbdWire.Serve(first, log + (g + later), max) == Before(done, asks, NbdWire.Serve(input, g + later, max));
      ServeOne(input, g + later, max, q);
      LeftOfOwn(q, a, later, max);
      BeforeTwice(done, asks, [ReplyTo(q, a, max)], Asked(q, max),
                  NbdWire.Serve(Dropped(input[REQUEST_LEN..], Drained(q, max)), later, max));
    }
  }

  lemma ValidHandle(input: seq<byte>, q: Request)
    requires |input| >= REQUEST_LEN && ParseRequest(input[..REQUEST_LEN]) == Some(q)
    ensures |q.handle| == 8
  {
  }

  /** The answer a request gets is the one given for it; what is given later stays for later. */
  lemma LeftOfOwn(q: Request, a: Answer, later: seq<Answer>, max: nat)
    ensures var g := if Asks(q, max) then [a] else [];
            Left(q, g + later, max) == later && ReplyTo(q, Head(g + later), max) == ReplyTo(q, a, max)
  {
    assert [] + later == later && ([a] + later)[1..] == later;
  }

  lemma ServeOne(input: seq<byte>, answers: seq<Answer>, max: nat, q: Request)
    requires |input| >= REQUEST_LEN && ParseRequest(input[..REQUEST_LEN]) == Some(q) && q.typ != CMD_DISC
    ensures NbdWire.Serve(input, answers, max)
         == Before([ReplyTo(q, Head(answers), max)], Asked(q, max),
                   NbdWire.Serve(Dropped(input[REQUEST_LEN..], Drained(q, max)), Left(q, answers, max), max))
  {
    hide ParseRequest;
  }

  lemma WireOneMore(out: seq<byte>, done: seq<Reply>, r: Reply)
    requires Handles(done) && |r.handle| == 8
    ensures Handles(done + [r]) && out + Wire(done + [r]) == out + Wire(done) + EncodeReply(r)
  {
    hide EncodeReply;
    assert (done + [r])[..|done|] == done;
  }

  lemma WirePrefix(out: seq<byte>, done: seq<Reply>, all: seq<Reply>)
    requires done <= all && Handles(all)
    ensures Handles(done) && out <= out + Wire(done) <= out + Wire(all)
  {
    hide EncodeReply, Wire;
    assert all == done + all[|done|..];
    WireSplit(done, all[|done|..]);
    Assoc(out, Wire(done), Wire(all[|done|..]));
  }
}
