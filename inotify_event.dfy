/** The fixed-layout record read from an inotify channel (Linux inotify(7)):
    wd, mask, cookie and len as 32-bit fields at byte offsets 0, 4, 8 and 12
    (host byte order, fixed here as little-endian), followed at offset 16 by
    len bytes holding a NUL-terminated, NUL-padded file name. */
module InotifyEvent {
  import opened Results

  newtype byte = x: int | 0 <= x < 256

  /** sizeof(struct inotify_event): four 32-bit fields, the name is a flexible array. */
  const EVENT_SIZE: nat := 16
  const NAME_MAX: nat := 255
  /** The read buffer of file_observer::poll: one event with the longest name. */
  const BUFFER_SIZE: nat := EVENT_SIZE + NAME_MAX + 1
  const IN_CLOSE_WRITE: bv32 := 0x0000_0008
  const TWO_32: nat := 0x1_0000_0000

  datatype Event = Event(wd: int, mask: bv32, cookie: nat, len: nat, name: seq<byte>)

  function Pow256(n: nat): (p: nat)
    ensures p >= 1
  {
    if n == 0 then 1 else 256 * Pow256(n - 1)
  }

  lemma Pow256Four()
    ensures Pow256(4) == TWO_32
  {
    assert Pow256(2) == 65536;
  }

  /** Little-endian value of a byte string. */
  function LeValue(bs: seq<byte>): (v: nat)
    ensures v < Pow256(|bs|)
  {
    if bs == [] then 0 else bs[0] as nat + 256 * LeValue(bs[1..])
  }

  /** The n little-endian bytes of v. */
  function LeBytes(v: nat, n: nat): (bs: seq<byte>)
    requires v < Pow256(n)
    ensures |bs| == n
  {
    if n == 0 then [] else [(v % 256) as byte] + LeBytes(v / 256, n - 1)
  }

  lemma DivModByte(b: nat, r: nat)
    requires b < 256
    ensures (b + 256 * r) % 256 == b && (b + 256 * r) / 256 == r
  {
  }

  lemma {:induction false} LeValueOfBytes(v: nat, n: nat)
    requires v < Pow256(n)
    ensures LeValue(LeBytes(v, n)) == v
  {
    if n > 0 {
      var bs := LeBytes(v, n);
      LeValueOfBytes(v / 256, n - 1);
      assert bs[1..] == LeBytes(v / 256, n - 1);
      assert bs[0] as nat == v % 256;
    }
  }

  lemma {:induction false} LeBytesOfValue(bs: seq<byte>)
    ensures LeBytes(LeValue(bs), |bs|) == bs
  {
    if bs != [] {
      var r := LeValue(bs[1..]);
      var v := LeValue(bs);
      var b := bs[0] as nat;
      assert v == b + 256 * r;
      DivModByte(b, r);
      LeBytesOfValue(bs[1..]);
      assert LeBytes(v, |bs|) == [(b as byte)] + LeBytes(r, |bs| - 1);
    }
  }

  /** The unsigned 32-bit field at byte offset off. */
  function U32At(buf: seq<byte>, off: nat): (v: nat)
    requires off + 4 <= |buf|
    ensures v < TWO_32
  {
    Pow256Four();
    LeValue(buf[off..off + 4])
  }

  /** Two's-complement reading of a 32-bit pattern (the int field wd). */
  function ToInt32(u: nat): (i: int)
    requires u < TWO_32
    ensures -0x8000_0000 <= i < 0x8000_0000
    ensures FromInt32(i) == u
  {
    if u < 0x8000_0000 then u else u - TWO_32
  }

  function FromInt32(i: int): (u: nat)
    requires -0x8000_0000 <= i < 0x8000_0000
    ensures u < TWO_32
  {
    if i >= 0 then i else i + TWO_32
  }

  /** The C string starting at the front of s: its longest prefix free of NUL. */
  function CString(s: seq<byte>): (name: seq<byte>)
    ensures name <= s
    ensures NulFree(name)
    ensures |name| < |s| ==> s[|name|] == 0
  {
    if s == [] || s[0] == 0 then [] else [s[0]] + CString(s[1..])
  }

  predicate NulFree(s: seq<byte>) {
    forall i | 0 <= i < |s| :: s[i] != 0
  }

  /** Reads the first record of buf; None when buf cannot hold a header.
      The name is taken only when len > 0, and runs up to the first NUL
      byte after the header, as std::string(fd_event->name) does. */
  function Decode(buf: seq<byte>): (r: Option<Event>)
    ensures r.None? <==> |buf| < EVENT_SIZE
    ensures r.Some? ==> -0x8000_0000 <= r.value.wd < 0x8000_0000 && r.value.len < TWO_32
    ensures r.Some? ==> NulFree(r.value.name) && |r.value.name| <= |buf| - EVENT_SIZE
    ensures r.Some? && r.value.len == 0 ==> r.value.name == []
  {
    if |buf| < EVENT_SIZE then None
    else
      var len := U32At(buf, 12);
      Some(Event(
        ToInt32(U32At(buf, 0)),
        U32At(buf, 4) as bv32,
        U32At(buf, 8),
        len,
        if len > 0 then CString(buf[EVENT_SIZE..]) else []))
  }

  /** The records the kernel produces: 32-bit fields, a NUL-free name, and
      len counting the name with at least one terminating NUL. */
  predicate WellFormed(e: Event) {
    && -0x8000_0000 <= e.wd < 0x8000_0000
    && e.cookie < TWO_32
    && e.len < TWO_32
    && NulFree(e.name)
    && (if e.len == 0 then e.name == [] else |e.name| < e.len)
  }

  function Zeros(n: nat): (z: seq<byte>)
    ensures |z| == n && forall i | 0 <= i < n :: z[i] == 0
  {
    seq(n, _ => 0)
  }

  /** The record as the kernel writes it: the header, then the name padded
      with NUL bytes to len. */
  function Encode(e: Event): (bs: seq<byte>)
    requires WellFormed(e)
    ensures |bs| == EVENT_SIZE + e.len
    ensures bs[EVENT_SIZE..EVENT_SIZE + |e.name|] == e.name
    ensures forall i | EVENT_SIZE + |e.name| <= i < |bs| :: bs[i] == 0
  {
    Pow256Four();
    LeBytes(FromInt32(e.wd), 4) + LeBytes(e.mask as nat, 4)
      + LeBytes(e.cookie, 4) + LeBytes(e.len, 4) + e.name + Zeros(e.len - |e.name|)
  }

  /** Whether the record reports a completed write of fileName in the
      directory watched under watchWd (the four tests of file_observer::poll). */
  predicate Fires(e: Event, watchWd: int, fileName: seq<byte>)
    ensures Fires(e, watchWd, fileName) ==> e.mask & IN_CLOSE_WRITE == IN_CLOSE_WRITE
    ensures Fires(e, watchWd, fileName) ==> e.wd == watchWd && e.name == fileName && e.len > 0
  {
    && e.len > 0
    && e.mask & IN_CLOSE_WRITE != 0
    && e.wd == watchWd
    && e.name == fileName
  }

  /** The poll buffer after a read of data: zero-initialised, data at the front. */
  function Padded(data: seq<byte>): (buf: seq<byte>)
    requires |data| <= BUFFER_SIZE
    ensures |buf| == BUFFER_SIZE && buf[..|data|] == data
    ensures forall i | |data| <= i < BUFFER_SIZE :: buf[i] == 0
  {
    data + Zeros(BUFFER_SIZE - |data|)
  }

  lemma {:induction false} CStringStopsAtNul(name: seq<byte>, t: seq<byte>)
    requires NulFree(name) && t != [] && t[0] == 0
    ensures CString(name + t) == name
  {
    if name != [] {
      assert (name + t)[1..] == name[1..] + t;
      CStringStopsAtNul(name[1..], t);
    } else {
      assert name + t == t;
    }
  }

  lemma FieldAt(buf: seq<byte>, off: nat, x: nat)
    requires x < Pow256(4) && off + 4 <= |buf|
    requires buf[off..off + 4] == LeBytes(x, 4)
    ensures U32At(buf, off) == x
  {
    LeValueOfBytes(x, 4);
  }

  /** Decoding reads exactly the first record: whatever follows it in the
      buffer has no influence on the result. */
  lemma DecodeFirstRecord(e: Event, rest: seq<byte>)
    requires WellFormed(e)
    ensures Decode(Encode(e) + rest) == Some(e)
  {
    var tail := e.name + Zeros(e.len - |e.name|) + rest;
    var buf := Encode(e) + rest;
    HeaderFields(e, tail);
    assert Encode(e) == Header(e) + e.name + Zeros(e.len - |e.name|);
    assert buf == Header(e) + tail;
    if e.len > 0 {
      var t := Zeros(e.len - |e.name|) + rest;
      assert tail == e.name + t;
      CStringStopsAtNul(e.name, t);
    }
    DecodeFromFields(buf, e);
  }

  /** The 16 header bytes of a record. */
  function Header(e: Event): (h: seq<byte>)
    requires WellFormed(e)
    ensures |h| == EVENT_SIZE
  {
    Pow256Four();
    LeBytes(FromInt32(e.wd), 4) + LeBytes(e.mask as nat, 4) + LeBytes(e.cookie, 4) + LeBytes(e.len, 4)
  }

  lemma HeaderFields(e: Event, tail: seq<byte>)
    requires WellFormed(e)
    ensures var buf := Header(e) + tail;
            && U32At(buf, 0) == FromInt32(e.wd) && U32At(buf, 4) == e.mask as nat
            && U32At(buf, 8) == e.cookie && U32At(buf, 12) == e.len
            && buf[EVENT_SIZE..] == tail
  {
    Pow256Four();
    var wd, mask, cookie, len := LeBytes(FromInt32(e.wd), 4), LeBytes(e.mask as nat, 4),
                                 LeBytes(e.cookie, 4), LeBytes(e.len, 4);
    var buf := Header(e) + tail;
    assert buf[0..4] == wd;
    FieldAt(buf, 0, FromInt32(e.wd));
    assert buf[4..8] == mask;
    FieldAt(buf, 4, e.mask as nat);
    assert buf[8..12] == cookie;
    FieldAt(buf, 8, e.cookie);
    assert buf[12..16] == len;
    FieldAt(buf, 12, e.len);
  }

  lemma DecodeFromFields(buf: seq<byte>, e: Event)
    requires WellFormed(e) && |buf| >= EVENT_SIZE
    requires U32At(buf, 0) == FromInt32(e.wd) && U32At(buf, 4) == e.mask as nat
    requires U32At(buf, 8) == e.cookie && U32At(buf, 12) == e.len
    requires e.len > 0 ==> CString(buf[EVENT_SIZE..]) == e.name
    ensures Decode(buf) == Some(e)
  {
    MaskRoundTrip(e.mask);
    Int32RoundTrip(e.wd);
  }

  lemma MaskRoundTrip(m: bv32)
    ensures (m as nat) as bv32 == m
  {
  }

  lemma Int32RoundTrip(i: int)
    requires -0x8000_0000 <= i < 0x8000_0000
    ensures ToInt32(FromInt32(i)) == i
  {
  }

  /** A single kernel record read into the poll buffer decodes to itself. */
  lemma PaddedRecordDecodes(e: Event)
    requires WellFormed(e) && EVENT_SIZE + e.len <= BUFFER_SIZE
    ensures Decode(Padded(Encode(e))) == Some(e)
  {
    DecodeFirstRecord(e, Zeros(BUFFER_SIZE - |Encode(e)|));
  }

  /** Several records returned by one read: only the first is ever seen. */
  lemma LaterRecordsIgnored(e: Event, rest: seq<byte>)
    requires WellFormed(e) && EVENT_SIZE + e.len + |rest| <= BUFFER_SIZE
    ensures Decode(Padded(Encode(e) + rest)) == Some(e)
  {
    var data := Encode(e) + rest;
    assert Padded(data) == Encode(e) + (rest + Zeros(BUFFER_SIZE - |data|));
    DecodeFirstRecord(e, rest + Zeros(BUFFER_SIZE - |data|));
  }

  /** An event about another entry of the watched directory never fires. */
  lemma SiblingNeverFires(e: Event, rest: seq<byte>, watchWd: int, fileName: seq<byte>)
    requires WellFormed(e) && EVENT_SIZE + e.len + |rest| <= BUFFER_SIZE
    requires e.name != fileName
    ensures !Fires(Decode(Padded(Encode(e) + rest)).value, watchWd, fileName)
  {
    LaterRecordsIgnored(e, rest);
  }
}
