/** The buffered reader of `csapp.c`: whatever pieces the system call delivers, readers see the stream. */
module Rio {
  import opened Lists
  import opened Words

  type Bytes = seq<Byte>

  const RIO_BUFSIZE: nat := 8192
  const NEWLINE: Byte := 10

  /** How one call of read() goes: interrupted by a signal, or at most so many bytes (and at least one). */
  datatype Event = Interrupted | Deliver(most: nat)

  function Min(a: nat, b: nat): nat { if a < b then a else b }

  /** An open file: the bytes still to come, and how the next calls of read() will go. After those, every
      call delivers all it can. */
  class File {
    var rest: Bytes
    var events: seq<Event>

    constructor (stream: Bytes, events: seq<Event>)
      ensures rest == stream && this.events == events
    {
      rest, this.events := stream, events;
    }

    /** read(): -1 when interrupted, 0 exactly at the end, otherwise the next few bytes. */
    method Read(buf: array<Byte>) returns (n: int)
      requires buf.Length > 0
      modifies this, buf
      ensures -1 <= n <= |old(rest)| && n <= buf.Length
      ensures |events| <= |old(events)| && (n == -1 ==> |events| < |old(events)|)
      ensures n == 0 ==> old(rest) == []
      ensures n <= 0 ==> rest == old(rest)
      ensures n > 0 ==> rest == old(rest)[n..] && buf[..n] == old(rest)[..n]
    {
      var room := Min(buf.Length, |rest|);
      if events != [] {
        var e := events[0];
        events := events[1..];
        match e {
          case Interrupted => return -1;
          case Deliver(most) => room := Min(if most == 0 then 1 else most, room);
        }
      }
      n := room;
      var i := 0;
      while i < n
        invariant 0 <= i <= n && buf[..i] == rest[..i]
        modifies buf
      {
        buf[i] := rest[i];
        i := i + 1;
      }
      rest := rest[n..];
    }
  }

  /** What a call of rio_readlineb takes from the stream: up to and including the first newline, at most
      `limit` bytes. */
  function Line(stream: Bytes, limit: nat): (line: Bytes)
    ensures |line| <= limit && line <= stream
  {
    if stream == [] || limit == 0 then []
    else if stream[0] == NEWLINE then [NEWLINE]
    else [stream[0]] + Line(stream[1..], limit - 1)
  }

  /** A line stops exactly at a newline, at the limit or at the end, whichever comes first. */
  lemma {:induction false} LineStops(stream: Bytes, limit: nat)
    ensures var line := Line(stream, limit); var k := |line|;
            && (forall j :: 0 <= j < k - 1 ==> stream[j] != NEWLINE)
            && (k == limit || k == |stream| || (k > 0 && stream[k - 1] == NEWLINE))
  {
    if stream != [] && limit > 0 && stream[0] != NEWLINE {
      LineStops(stream[1..], limit - 1);
      var line := Line(stream[1..], limit - 1);
      assert forall j :: 1 <= j < |stream| ==> stream[j] == stream[1..][j - 1];
    }
  }

  lemma OverwriteNext(was: Bytes, p: Bytes, q: Bytes)
    requires |p| + |q| <= |was|
    ensures Splice(Splice(was, 0, p), |p|, q) == Splice(was, 0, p + q)
  {
  }

  /** memcpy between two buffers. */
  method Memcpy(dest: array<Byte>, at: nat, source: array<Byte>, from: nat, count: nat)
    requires dest != source && at + count <= dest.Length && from + count <= source.Length
    modifies dest
    ensures dest[..] == Splice(old(dest[..]), at, source[from..from + count])
  {
    var i := 0;
    while i < count
      invariant 0 <= i <= count && dest[at..at + i] == source[from..from + i]
      invariant dest[..at] == old(dest[..at]) && dest[at + i..] == old(dest[at + i..])
    {
      dest[at + i] := source[from + i];
      i := i + 1;
    }
    assert dest[..] == dest[..at] + dest[at..at + count] + dest[at + count..];
  }

  class Rio {
    const file: File
    var cnt: int
    var bufptr: nat
    const buf: array<Byte>

    ghost predicate Valid()
      reads this
    {
      cnt <= buf.Length == RIO_BUFSIZE && (cnt > 0 ==> bufptr + cnt <= buf.Length)
    }

    /** The bytes not yet handed to a caller: those in the buffer, then those in the file. */
    ghost function Unread(): Bytes
      requires Valid()
      reads this, file, buf
    {
      (if cnt > 0 then buf[bufptr..bufptr + cnt] else []) + file.rest
    }

    /** rio_readinitb */
    constructor (file: File)
      ensures Valid() && this.file == file && fresh(buf) && Unread() == file.rest
    {
      this.file, cnt, bufptr := file, 0, 0;
      buf := new Byte[RIO_BUFSIZE](_ => 0);
    }

    /** Refill the empty buffer; false at the end of the file. */
    method Refill() returns (some: bool)
      requires Valid()
      modifies this, file, buf
      ensures Valid() && Unread() == old(Unread()) && some == (Unread() != []) && (some ==> cnt > 0)
    {
      while cnt <= 0
        invariant Valid() && Unread() == old(Unread())
        decreases |file.events|, if cnt <= 0 then 1 else 0
      {
        ghost var before := file.rest;
        cnt := file.Read(buf);
        if cnt == 0 {
          return false;
        } else if cnt > 0 {
          bufptr := 0;
          assert before == before[..cnt] + before[cnt..];
        }
      }
      return true;
    }

    /** rio_read: some of the next bytes, none only at the end of the stream. */
    method RioRead(usrbuf: array<Byte>, at: nat, n: nat) returns (count: nat)
      requires Valid() && at + n <= usrbuf.Length && usrbuf != buf && n > 0
      modifies this, file, buf, usrbuf
      ensures Valid() && count <= n && count <= |old(Unread())|
      ensures count == 0 <==> old(Unread()) == []
      ensures Unread() == old(Unread())[count..]
      ensures usrbuf[..] == Splice(old(usrbuf[..]), at, old(Unread())[..count])
    {
      hide Splice;
      var some := Refill();
      if !some {
        OverwriteNone(usrbuf[..], at);
        return 0;
      }
      count := if cnt < n then cnt else n;
      assert Unread()[..count] == buf[bufptr..bufptr + count];
      Memcpy(usrbuf, at, buf, bufptr, count);
      bufptr := bufptr + count;
      cnt := cnt - count;
    }

    /** rio_readnb: the next `n` bytes, or all that are left. */
    method RioReadnb(usrbuf: array<Byte>, n: nat) returns (count: nat)
      requires Valid() && n <= usrbuf.Length && usrbuf != buf
      modifies this, file, buf, usrbuf
      ensures Valid() && count == Min(n, |old(Unread())|)
      ensures Unread() == old(Unread())[count..]
      ensures usrbuf[..] == Splice(old(usrbuf[..]), 0, old(Unread())[..count])
    {
      hide Splice, Unread, Valid;
      ghost var all, was := Unread(), usrbuf[..];
      var nleft := n;
      OverwriteNone(was, 0);
      assert all[..0] == [] && all[0..] == all;
      while nleft > 0
        invariant 0 <= nleft <= n && n - nleft <= |all|
        invariant Valid() && Unread() == all[n - nleft..]
        invariant usrbuf[..] == Splice(was, 0, all[..n - nleft])
      {
        var done := n - nleft;
        var nread := RioRead(usrbuf, done, nleft);
        if nread == 0 {
          assert |all| == done && all[..done] + [] == all[..done];
          OverwriteNext(was, all[..done], []);
          break;
        }
        OverwriteNext(was, all[..done], all[done..][..nread]);
        Advance(all, done, nread);
        nleft := nleft - nread;
      }
      count := n - nleft;
    }

    /** rio_read of a single byte. */
    method ReadChar() returns (rc: nat, c: Byte)
      requires Valid()
      modifies this, file, buf
      ensures Valid() && rc == (if old(Unread()) == [] then 0 else 1)
      ensures Unread() == old(Unread())[rc..] && (rc == 1 ==> c == old(Unread())[0])
    {
      hide Unread, Valid;
      var one := new Byte[1];
      rc := RioRead(one, 0, 1);
      c := one[0];
    }

    /** rio_readlineb: the next line with a terminator, cut to fit; at the end of the stream the buffer is
        left alone. */
    method RioReadlineb(usrbuf: array<Byte>, maxlen: nat) returns (count: nat)
      requires Valid() && 1 <= maxlen <= usrbuf.Length && usrbuf != buf
      modifies this, file, buf, usrbuf
      ensures Valid() && count == |Line(old(Unread()), maxlen - 1)|
      ensures Unread() == old(Unread())[count..]
      ensures usrbuf[..] == if old(Unread()) == [] && maxlen > 1 then old(usrbuf[..])
                            else Splice(old(usrbuf[..]), 0, Line(old(Unread()), maxlen - 1) + [0])
    {
      hide Unread, Valid, Line, Splice, SoFar, Finished;
      ghost var all, was := Unread(), usrbuf[..];
      SoFarStart(all, was, maxlen - 1);
      var n := 1;
      while n < maxlen
        invariant 1 <= n <= maxlen && Valid()
        invariant SoFar(all, was, n - 1, maxlen - 1, Unread(), usrbuf[..])
      {
        ghost var unread, now := Unread(), usrbuf[..];
        var rc, c := ReadChar();
        if rc == 0 {
          SoFarEmpty(all, was, n - 1, maxlen - 1, now);
          if n == 1 {
            return 0;
          }
          break;
        }
        SoFarNext(all, was, n - 1, maxlen - 1, unread, now);
        usrbuf[n - 1] := c;
        n := n + 1;
        if c == NEWLINE {
          break;
        }
      }
      if n == maxlen { SoFarFull(all, was, maxlen - 1, Unread(), usrbuf[..]); }
      FinishedEnd(all, was, n - 1, maxlen - 1, Unread(), usrbuf[..]);
      usrbuf[n - 1] := 0;
      return n - 1;
    }
  }

  /** A line being read: `done` bytes of it are in the buffer and the rest is still to come. */
  ghost predicate SoFar(all: Bytes, was: Bytes, done: nat, limit: nat, unread: Bytes, now: Bytes) {
    && done <= |all| && done <= limit < |was| && unread == all[done..] && now == Splice(was, 0, all[..done])
    && Line(all, limit) == all[..done] + Line(all[done..], limit - done)
  }

  /** The line is complete: its bytes are exactly those in the buffer. */
  ghost predicate Finished(all: Bytes, was: Bytes, done: nat, limit: nat, unread: Bytes, now: Bytes) {
    && done <= |all| && done <= limit < |was| && unread == all[done..] && now == Splice(was, 0, all[..done])
    && Line(all, limit) == all[..done]
  }

  lemma SoFarStart(all: Bytes, was: Bytes, limit: nat)
    requires limit < |was|
    ensures SoFar(all, was, 0, limit, all, was)
  {
    hide Splice, Line;
    assert all[..0] == [] && all[0..] == all;
    OverwriteNone(was, 0);
    assert [] + Line(all, limit) == Line(all, limit);
  }

  lemma SoFarEmpty(all: Bytes, was: Bytes, done: nat, limit: nat, now: Bytes)
    requires SoFar(all, was, done, limit, [], now)
    ensures Finished(all, was, done, limit, [], now) && done == |all| && (done == 0 ==>
      now == was && Line(all, limit) == [])
  {
    assert all[done..] == [];
    assert all[..done] + [] == all[..done];
    if done == 0 { OverwriteNone(was, 0); }
  }

  lemma SoFarFull(all: Bytes, was: Bytes, limit: nat, unread: Bytes, now: Bytes)
    requires SoFar(all, was, limit, limit, unread, now) || Finished(all, was, limit, limit, unread, now)
    ensures Finished(all, was, limit, limit, unread, now)
  {
    hide Splice;
    assert all[..limit] + [] == all[..limit];
  }

  /** One more byte. */
  lemma SoFarNext(all: Bytes, was: Bytes, done: nat, limit: nat, unread: Bytes, now: Bytes)
    requires SoFar(all, was, done, limit, unread, now) && unread != [] && done < limit
    ensures |now| == |was|
    ensures unread[0] == NEWLINE ==> Finished(all, was, done + 1, limit, unread[1..], now[done := unread[0]])
    ensures unread[0] != NEWLINE ==> SoFar(all, was, done + 1, limit, unread[1..], now[done := unread[0]])
  {
    hide Splice, Line;
    var c := unread[0];
    OverwriteSnoc(was, all[..done], c);
    assert all[..done] + [c] == all[..done + 1] && unread[1..] == all[done + 1..];
    LineNext(all, done, limit - done);
  }

  lemma FinishedEnd(all: Bytes, was: Bytes, done: nat, limit: nat, unread: Bytes, now: Bytes)
    requires Finished(all, was, done, limit, unread, now)
    ensures done == |Line(all, limit)| && unread == all[done..] && done < |now|
    ensures now[done := 0] == Splice(was, 0, Line(all, limit) + [0])
  {
    hide Splice;
    OverwriteSnoc(was, all[..done], 0);
  }

  lemma OverwriteSnoc(was: Bytes, part: Bytes, b: Byte)
    requires |part| < |was|
    ensures Splice(was, 0, part)[|part| := b] == Splice(was, 0, part + [b])
  {
  }

  lemma OverwriteNone(was: Bytes, at: nat)
    requires at <= |was|
    ensures Splice(was, at, []) == was
  {
  }

  lemma Advance(all: Bytes, done: nat, n: nat)
    requires done + n <= |all|
    ensures all[..done] + all[done..][..n] == all[..done + n] && all[done..][n..] == all[done + n..]
  {
  }

  /** Reading one more byte of a line. */
  lemma LineNext(all: Bytes, done: nat, limit: nat)
    requires done <= |all| && limit > 0
    ensures done == |all| ==> Line(all[done..], limit) == []
    ensures done < |all| && all[done] == NEWLINE ==> all[..done] + Line(all[done..], limit) == all[..done + 1]
    ensures done < |all| && all[done] != NEWLINE ==>
      all[..done] + Line(all[done..], limit) == all[..done + 1] + Line(all[done + 1..], limit - 1)
  {
    if done < |all| {
      var rest := all[done..];
      assert rest[0] == all[done] && rest[1..] == all[done + 1..];
      assert all[..done + 1] == all[..done] + [all[done]];
      if all[done] != NEWLINE {
        assert all[..done] + ([all[done]] + Line(all[done + 1..],
          limit - 1)) == all[..done + 1] + Line(all[done + 1..], limit - 1);
      }
    }
  }

  // ---------------------------------------------------------------------------------------------
  // Any mixture of calls
  // ---------------------------------------------------------------------------------------------

  datatype Call = ReadBytes(n: nat) | ReadLine(limit: nat)

  function Taken(stream: Bytes, call: Call): (d: Bytes)
    ensures d <= stream
  {
    match call
    case ReadBytes(n) => stream[..Min(n, |stream|)]
    case ReadLine(limit) => Line(stream, limit)
  }

  /** What each of a sequence of calls delivers, as a function of the stream alone. */
  function Deliveries(stream: Bytes, calls: seq<Call>): (ds: seq<Bytes>)
    ensures |ds| == |calls|
  {
    if calls == [] then []
    else
      var d := Taken(stream, calls[0]);
      [d] + Deliveries(stream[|d|..], calls[1..])
  }

  function Concat(ds: seq<Bytes>): Bytes {
    if ds == [] then [] else ds[0] + Concat(ds[1..])
  }

  /** The deliveries are consecutive pieces of the stream: nothing is lost, repeated or reordered. */
  lemma {:induction false} DeliveriesConsecutive(stream: Bytes, calls: seq<Call>)
    ensures Concat(Deliveries(stream, calls)) <= stream
  {
    if calls != [] {
      var d := Taken(stream, calls[0]);
      DeliveriesConsecutive(stream[|d|..], calls[1..]);
      var rest := Concat(Deliveries(stream[|d|..], calls[1..]));
      assert stream == d + stream[|d|..];
      assert Deliveries(stream, calls)[1..] == Deliveries(stream[|d|..], calls[1..]);
      assert stream[..|d| + |rest|] == d + rest;
    }
  }

  /** One call with a buffer of its own. */
  method Perform(rio: Rio, call: Call) returns (d: Bytes)
    requires rio.Valid()
    modifies rio, rio.file, rio.buf
    ensures rio.Valid() && d == Taken(old(rio.Unread()), call) && rio.Unread() == old(rio.Unread())[|d|..]
  {
    hide Line, Splice, Rio.Unread, Rio.Valid;
    ghost var before := rio.Unread();
    match call {
      case ReadBytes(n) =>
        var usrbuf := new Byte[n];
        ghost var was := usrbuf[..];
        var count := rio.RioReadnb(usrbuf, n);
        OverwrittenPrefix(was, before[..count], count);
        d := usrbuf[..count];
      case ReadLine(limit) =>
        var usrbuf := new Byte[limit + 1];
        ghost var was := usrbuf[..];
        var count := rio.RioReadlineb(usrbuf, limit + 1);
        LineFits(before, limit);
        if before != [] || limit == 0 { OverwrittenPrefix(was, Line(before, limit) + [0], count); }
        d := usrbuf[..count];
    }
  }

  /** Fragmentation independence: however read() splits the stream and however often it is interrupted,
      a sequence of calls delivers what the stream alone determines. */
  method ReadAll(stream: Bytes, events: seq<Event>, calls: seq<Call>) returns (out: seq<Bytes>)
    ensures out == Deliveries(stream, calls)
  {
    hide Line, Rio.Unread, Rio.Valid, Taken;
    var file := new File(stream, events);
    var rio := new Rio(file);
    out := [];
    var i := 0;
    assert calls[0..] == calls;
    while i < |calls|
      invariant 0 <= i <= |calls| && rio.Valid() && fresh(rio) && fresh(file) && fresh(rio.buf) && rio.file == file
      invariant out + Deliveries(rio.Unread(), calls[i..]) == Deliveries(stream, calls)
    {
      ghost var before, sofar := rio.Unread(), out;
      assert calls[i..][0] == calls[i] && calls[i..][1..] == calls[i + 1..];
      var d := Perform(rio, calls[i]);
      out := out + [d];
      i := i + 1;
      assert sofar + ([d] + Deliveries(rio.Unread(), calls[i..])) == out + Deliveries(rio.Unread(), calls[i..]);
    }
    assert out + [] == out;
  }

  lemma LineFits(stream: Bytes, limit: nat)
    ensures |Line(stream, limit)| <= limit && (stream == [] ==> Line(stream, limit) == [])
  {
  }

  lemma OverwrittenPrefix(was: Bytes, part: Bytes, k: nat)
    requires k <= |part| <= |was|
    ensures Splice(was, 0, part)[..k] == part[..k]
  {
  }
}
