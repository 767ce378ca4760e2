/** A fragment's way from a data source to the event builder, through the byte layout of the
    buffers: publish, receive, store, pull. */
module Transport {
  import opened LittleEndian
  import opened ByteArrays
  import opened Fragment
  import opened Compression
  import opened ShmDirectory
  import opened Options

  /** Writing a payload over a buffer changes the payload only. */
  lemma PayloadOver(was: seq<Byte>, size: nat, w: seq<Byte>)
    requires HEADER + size <= |was| && HEADER + |w| <= |was|
    ensures Parse(Patch(was, HEADER, w)[..HEADER + |w|]) == Parse(was[..HEADER + size]).(payload := w)
  {
    var s, t := Patch(was, HEADER, w)[..HEADER + |w|], was[..HEADER + size];
    assert s[0..4] == t[0..4] && s[4..8] == t[4..8] && s[8..12] == t[8..12] && s[12..20] == t[12..20];
    assert s[20..] == w;
  }

  lemma PayloadIn(s: seq<Byte>, size: nat)
    requires HEADER + size <= |s|
    ensures Parse(s[..HEADER + size]).payload == s[HEADER..HEADER + size]
  {
    assert s[..HEADER + size][HEADER..] == s[HEADER..HEADER + size];
  }

  /** A buffer: its bytes, of which the first 20 are the header, and the payload size. */
  class Buffer {
    const data: array<Byte>
    var psize: U32

    constructor (maxSize: nat)
      requires maxSize >= HEADER
      ensures fresh(data) && data.Length == maxSize && psize == 0
    {
      data := new Byte[maxSize];
      psize := 0;
    }

    method SetDetectorId(id: U32)
      requires data.Length >= HEADER
      modifies data
      ensures data[..] == Patch(old(data[..]), 0, Le(id, 4))
    {
      Copy(data, 0, Le(id, 4));
    }

    method SetDataSourceId(id: U32)
      requires data.Length >= HEADER
      modifies data
      ensures data[..] == Patch(old(data[..]), 4, Le(id, 4))
    {
      Copy(data, 4, Le(id, 4));
    }

    method SetEventId(id: U32)
      requires data.Length >= HEADER
      modifies data
      ensures data[..] == Patch(old(data[..]), 8, Le(id, 4))
    {
      Copy(data, 8, Le(id, 4));
    }

    method SetBxId(id: U64)
      requires data.Length >= HEADER
      modifies data
      ensures data[..] == Patch(old(data[..]), 12, Le(id, 8))
    {
      Copy(data, 12, Le(id, 8));
    }

    method SetPayloadSize(s: U32)
      modifies this`psize
      ensures psize == s
    {
      psize := s;
    }

    /** The payload is replaced by its compressed form. */
    method Compress(z: Zlib)
      requires HEADER + psize <= data.Length
      requires HEADER + |Deflated(z, data[HEADER..HEADER + psize])| <= data.Length
      modifies this`psize, data
      ensures HEADER + psize <= data.Length
      ensures Content() == old(Content()).(payload := Deflated(z, old(Content()).payload))
    {
      ghost var was := data[..];
      var obuf := Deflated(z, data[HEADER..HEADER + psize]);
      Copy(data, HEADER, obuf);
      psize := |obuf|;
      PayloadOver(was, old(psize), obuf);
      assert was[..HEADER + old(psize)][HEADER..] == was[HEADER..HEADER + old(psize)];
    }

    /** The payload is replaced by its uncompressed form. */
    method Uncompress(z: Zlib)
      requires HEADER + psize <= data.Length
      requires HEADER + |Inflated(z, data[HEADER..HEADER + psize])| <= data.Length
      modifies this`psize, data
      ensures HEADER + psize <= data.Length
      ensures Content() == old(Content()).(payload := Inflated(z, old(Content()).payload))
    {
      ghost var was := data[..];
      var obuf := Inflated(z, data[HEADER..HEADER + psize]);
      Copy(data, HEADER, obuf);
      psize := |obuf|;
      PayloadOver(was, old(psize), obuf);
      assert was[..HEADER + old(psize)][HEADER..] == was[HEADER..HEADER + old(psize)];
    }

    /** Copy a whole message to the start of the buffer; the payload size is what it has more
        than a header, in 32 bits. */
    method Receive(message: seq<Byte>)
      requires |message| <= data.Length && |message| < U32_RANGE
      modifies this`psize, data
      ensures data[..] == message + old(data[|message|..])
      ensures psize == (|message| + U32_RANGE - HEADER) % U32_RANGE && Size() == |message|
      ensures data[..|message|] == message
    {
      ghost var was := data[..];
      Copy(data, 0, message);
      assert data[..] == message + was[|message|..];
      psize := (|message| + U32_RANGE - HEADER) % U32_RANGE;
    }

    /** Header plus payload size, in 32 bits. */
    function Size(): U32
      reads this
    {
      (psize + HEADER) % U32_RANGE
    }

    /** What the four getters, payloadSize and payload return together. */
    function Content(): Fragment
      requires data.Length >= HEADER && HEADER + psize <= data.Length
      reads this, data
    {
      Parse(data[..HEADER + psize])
    }
  }

  /** The ids are in the header of the buffer's bytes. */
  ghost predicate Carries(s: seq<Byte>, det: U32, src: U32) {
    |s| >= HEADER && s[0..4] == Le(det, 4) && s[4..8] == Le(src, 4)
  }

  /** Writing the event tags over a buffer that carries the source's ids gives the fragment's
      bytes. */
  lemma HeaderOver(was: seq<Byte>, det: U32, src: U32, evt: U32, bx: U64, size: nat)
    requires HEADER <= size <= |was| && Carries(was, det, src)
    ensures var s := Patch(Patch(was, 12, Le(bx, 8)), 8, Le(evt, 4));
            && |s| == |was| && Carries(s, det, src)
            && s[..size] == Fragment(det, src, evt, bx, was[HEADER..size]).Bytes()
  {
    var one := Patch(was, 12, Le(bx, 8));
    var two := Patch(one, 8, Le(evt, 4));
    assert one[..8] == was[0..4] + was[4..8];
    assert one[12..20] == Le(bx, 8) && one[20..] == was[20..];
    assert two == one[..8] + Le(evt, 4) + one[12..20] + one[20..];
  }

  class DataSource {
    const det: U32
    const src: U32
    const buffer: Buffer

    ghost predicate Valid()
      reads this, buffer, buffer.data
    {
      Carries(buffer.data[..], det, src)
    }

    constructor (detid: U32, sourceid: U32, maxSize: nat)
      requires maxSize >= HEADER
      ensures Valid() && det == detid && src == sourceid
      ensures fresh(buffer) && fresh(buffer.data) && buffer.data.Length == maxSize
    {
      det, src := detid, sourceid;
      buffer := new Buffer(maxSize);
      new;
      buffer.SetDataSourceId(sourceid);
      ghost var was := buffer.data[..];
      assert was[4..8] == Le(sourceid, 4);
      buffer.SetDetectorId(detid);
      assert buffer.data[..][0..4] == Le(detid, 4) && buffer.data[..][4..8] == was[4..8];
    }

    /** The payload has been written into the buffer beforehand; its bytes, after the header,
        are sent with the header of this event. */
    method Publish(evt: U32, bx: U64, payloadSize: U32) returns (message: seq<Byte>)
      requires Valid() && HEADER + payloadSize <= buffer.data.Length && HEADER + payloadSize < U32_RANGE
      modifies buffer, buffer.data
      ensures Valid()
      ensures message == Fragment(det, src, evt, bx, old(buffer.data[HEADER..HEADER + payloadSize])).Bytes()
    {
      hide Carries, Patch, Fragment.Bytes;
      ghost var was := buffer.data[..];
      buffer.SetBxId(bx);
      buffer.SetEventId(evt);
      buffer.SetPayloadSize(payloadSize);
      message := buffer.data[..buffer.Size()];
      HeaderOver(was, det, src, evt, bx, HEADER + payloadSize);
      assert buffer.data[..buffer.Size()] == buffer.data[..][..HEADER + payloadSize];
    }
  }

  class DataSocket {
    const buffer: Buffer
    const memdir: string
    var count: U32

    constructor (maxSize: nat, dir: string)
      requires maxSize >= HEADER
      ensures memdir == dir && count == 0
      ensures fresh(buffer) && fresh(buffer.data) && buffer.data.Length == maxSize
    {
      buffer := new Buffer(maxSize);
      memdir, count := dir, 0;
    }

    /** A message has arrived: it is copied into the buffer and, when saving is on and the
        event id is not 0, stored under the name that the tags in the buffer make. opens and
        written are the file system's part in the store. */
    method InfoHandler(message: seq<Byte>, dir: Directory, opens: bool, written: nat)
      requires |message| <= buffer.data.Length && |message| < U32_RANGE && buffer.data.Length >= HEADER
      requires written <= |message|
      modifies this`count, buffer, buffer.data, dir
      ensures count == (old(count) + 1) % U32_RANGE
      ensures buffer.data[..] == message + old(buffer.data[|message|..]) && buffer.Size() == |message|
      ensures var f := Parse((message + old(buffer.data[|message|..]))[..HEADER]);
              var (n, d, m) := (f.Named(), old(dir.data), old(dir.markers));
              if |memdir| > 4 && f.evt != 0 && opens then
                && dir.data == d[n := Overwrite(if n in d then d[n] else [], message[..written])]
                && dir.markers == m + if written == |message| then {n} else {}
              else dir.data == d && dir.markers == m
    {
      hide Parse, Overwrite, Patch;
      count := (count + 1) % U32_RANGE;
      buffer.Receive(message);
      var f := Parse(buffer.data[..HEADER]);
      assert buffer.data[..HEADER] == buffer.data[..][..HEADER];
      if |memdir| > 4 && f.evt != 0 {
        dir.Store(f.Named(), buffer.data[..buffer.Size()], opens, written);
      }
    }
  }

  /** The tags are in the header. */
  lemma TagsInHeader(s: seq<Byte>)
    requires |s| >= HEADER
    ensures Parse(s[..HEADER]).Named() == Parse(s).Named()
  {
    var h := s[..HEADER];
    assert h[0..4] == s[0..4] && h[4..8] == s[4..8] && h[8..12] == s[8..12] && h[12..20] == s[12..20];
  }

  /** `pull`: at most READ_MAX bytes of the file go into the buffer, whose payload size becomes
      what they are more than a header, in 32 bits. */
  method PullInto(n: Name, buf: Buffer, dir: Directory)
    requires buf.data.Length >= READ_MAX
    modifies buf, buf.data, dir
    ensures n !in old(dir.data) ==>
        && buf.data[..] == old(buf.data[..]) && buf.psize == old(buf.psize)
        && dir.data == old(dir.data) && dir.markers == old(dir.markers)
    ensures n in old(dir.data) ==>
        var s := OneRead(old(dir.data)[n]);
        && buf.data[..] == s + old(buf.data[|s|..]) && buf.Size() == |s|
        && (|s| >= HEADER ==> HEADER + buf.psize <= buf.data.Length && buf.Content() == Parse(s))
        && dir.data == old(dir.data) - {n} && dir.markers == old(dir.markers) - {n}
  {
    hide Parse;
    var r := dir.Pull(n);
    if r == None {
      return;
    }
    buf.Receive(r.value);
  }

  lemma StoredWhole(message: seq<Byte>)
    ensures Overwrite([], message[..|message|]) == message
  {
  }

  /** The whole way, for a source, a saving socket and a name not stored before. */
  method Deliver(ds: DataSource, sock: DataSocket, dir: Directory, buf: Buffer, evt: U32, bx: U64, size: U32)
    returns (ghost sent: Fragment)
    requires ds.Valid() && HEADER + size <= ds.buffer.data.Length <= sock.buffer.data.Length
    requires HEADER + size < U32_RANGE
    requires evt != 0 && |sock.memdir| > 4 && Name(ds.det, ds.src, evt, bx) !in dir.data
    requires buf.data.Length >= READ_MAX
    requires ds.buffer != sock.buffer && ds.buffer != buf && sock.buffer != buf
    requires ds.buffer.data != sock.buffer.data && ds.buffer.data != buf.data && sock.buffer.data != buf.data
    modifies ds.buffer, ds.buffer.data, sock, sock.buffer, sock.buffer.data, dir, buf, buf.data
    // the fragment the source meant
    ensures sent == Fragment(ds.det, ds.src, evt, bx, old(ds.buffer.data[HEADER..HEADER + size]))
    // the tags always arrive; the payload up to the limit of one read
    ensures HEADER + buf.psize <= buf.data.Length
    ensures buf.Content() == Cut(sent) && (buf.Content() == sent <==> 20 + size <= 0x2_0000)
    // and the directory is as before
    ensures dir.data == old(dir.data) && dir.markers == old(dir.markers) - {sent.Named()}
  {
    hide Parse, Overwrite, Patch;
    sent := Fragment(ds.det, ds.src, evt, bx, ds.buffer.data[HEADER..HEADER + size]);
    var message := ds.Publish(evt, bx, size);
    ParseBytes(sent);
    ghost var after := sock.buffer.data[|message|..];
    TagsInHeader(message);
    assert (message + after)[..HEADER] == message[..HEADER];
    sock.InfoHandler(message, dir, true, |message|);
    StoredWhole(message);
    PullInto(Name(ds.det, ds.src, evt, bx), buf, dir);
    ReadIsCut(sent);
  }

  /** compress, then uncompress: the buffer's content is as before if and only if zlib copes
      with the payload. */
  method CompressUncompress(z: Zlib, b: Buffer)
    requires HEADER + b.psize <= b.data.Length
    requires var c := Deflated(z, b.data[HEADER..HEADER + b.psize]);
             HEADER + |c| <= b.data.Length && HEADER + |Inflated(z, c)| <= b.data.Length
    modifies b`psize, b.data
    ensures HEADER + b.psize <= b.data.Length
    ensures b.Content().Named() == old(b.Content()).Named()
    ensures b.Content() == old(b.Content()) <==> Good(z, old(b.Content()).payload)
  {
    PayloadIn(b.data[..], b.psize);
    b.Compress(z);
    PayloadIn(b.data[..], b.psize);
    hide Parse;
    b.Uncompress(z);
  }
}
