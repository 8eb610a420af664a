/** The event stream: the circular send buffer of net.c, and the receive side of net.c and event-spread.c. */
module Net {

  newtype byte = x: int | 0 <= x < 256

  const BUF_LEN: nat := 65536
  const HEADER: nat := 8
  const LOST_SIZE: nat := 24
  const U64: nat := 0x1_0000_0000_0000_0000

  // ---- records --------------------------------------------------------------------------------------

  /** header.size: little-endian in bytes 6 and 7. */
  function SizeOf(r: seq<byte>): nat
    requires |r| >= HEADER
  {
    r[6] as int + 256 * r[7] as int
  }

  /** A whole record, longer than its header. */
  predicate Framed(r: seq<byte>) { |r| > HEADER && SizeOf(r) == |r| }

  function Le(n: nat, width: nat): (r: seq<byte>)
    ensures |r| == width
  {
    if width == 0 then [] else [(n % 256) as byte] + Le(n / 256, width - 1)
  }

  function FromLe(r: seq<byte>): nat { if r == [] then 0 else r[0] as int + 256 * FromLe(r[1..]) }

  /** struct perf_record_lost: type 2, misc 0, size 24, id 0, the count. */
  function LostRecord(count: nat): (r: seq<byte>)
    ensures |r| == LOST_SIZE
  {
    Le(2, 4) + Le(0, 2) + Le(LOST_SIZE, 2) + Le(0, 8) + Le(count, 8)
  }

  function Pow256(width: nat): nat { if width == 0 then 1 else 256 * Pow256(width - 1) }

  lemma {:induction false} LeRoundTrip(n: nat, width: nat)
    requires n < Pow256(width)
    ensures FromLe(Le(n, width)) == n
  {
    if width > 0 {
      LeRoundTrip(n / 256, width - 1);
      assert Le(n, width)[1..] == Le(n / 256, width - 1);
    }
  }

  lemma Literals()
    ensures Le(2, 4) == [2, 0, 0, 0] && Le(0, 2) == [0, 0] && Le(LOST_SIZE, 2) == [24, 0] && Le(0, 8) == [0, 0, 0, 0, 0, 0, 0, 0]
  {
    assert Le(0, 4) == [0, 0, 0, 0];
    assert Le(0, 8) == [0, 0, 0, 0] + Le(0, 4);
  }

  /** A LOST record is framed, says what it is and carries its count. */
  lemma LostRecordReads(count: nat)
    requires count < U64
    ensures Framed(LostRecord(count)) && FromLe(LostRecord(count)[16..]) == count
    ensures LostRecord(count)[..HEADER] == [2, 0, 0, 0, 0, 0, 24, 0] && LostRecord(count)[8..16] == [0, 0, 0, 0, 0, 0, 0, 0]
  {
    var r := LostRecord(count);
    Literals();
    assert r[16..] == Le(count, 8) && r[8..16] == Le(0, 8);
    assert r[..HEADER] == Le(2, 4) + Le(0, 2) + Le(LOST_SIZE, 2);
    assert Pow256(8) == U64 by { assert Pow256(4) == 0x1_0000_0000; }
    LeRoundTrip(count, 8);
    assert r[6] == r[..HEADER][6] && r[7] == r[..HEADER][7];
  }

  // ---- streams of records -----------------------------------------------------------------------------

  function Flat(rs: seq<seq<byte>>): seq<byte> { if rs == [] then [] else Flat(rs[..|rs| - 1]) + rs[|rs| - 1] }

  lemma FlatSnoc(rs: seq<seq<byte>>, r: seq<byte>)
    ensures Flat(rs + [r]) == Flat(rs) + r
  {
    assert (rs + [r])[..|rs|] == rs;
  }

  lemma {:induction false} FlatSplit(rs: seq<seq<byte>>, k: nat)
    requires k <= |rs|
    ensures Flat(rs) == Flat(rs[..k]) + Flat(rs[k..])
    decreases |rs|
  {
    if k == |rs| {
      assert rs[..k] == rs && rs[k..] == [];
    } else {
      var n := |rs| - 1;
      FlatSplit(rs[..n], k);
      assert rs[..n][..k] == rs[..k] && rs[..n][k..] == rs[k..n];
      FlatSnoc(rs[k..n], rs[n]);
      assert rs[k..n] + [rs[n]] == rs[k..];
    }
  }

  /** The stream continues with record k. */
  lemma FlatNext(rs: seq<seq<byte>>, k: nat)
    requires k < |rs|
    ensures Flat(rs[..k + 1]) == Flat(rs[..k]) + rs[k] && Flat(rs) == Flat(rs[..k]) + rs[k] + Flat(rs[k + 1..])
  {
    hide Flat;
    FlatStep(rs, k);
    FlatRest(rs, k, Flat(rs[..k]));
  }

  lemma FlatStep(rs: seq<seq<byte>>, k: nat)
    requires k < |rs|
    ensures Flat(rs[..k + 1]) == Flat(rs[..k]) + rs[k]
  {
    var a := rs[..k + 1];
    assert a[..|a| - 1] == rs[..k];
  }

  lemma FlatRest(rs: seq<seq<byte>>, k: nat, before: seq<byte>)
    requires k < |rs| && before == Flat(rs[..k])
    ensures Flat(rs) == before + rs[k] + Flat(rs[k + 1..])
  {
    FlatStep(rs, k);
    FlatSplit(rs, k + 1);
  }

  predicate Prefix(a: seq<byte>, b: seq<byte>) { |a| <= |b| && b[..|a|] == a }

  /** What was put on the wire: accepted records, and LOST records the sender made. */
  datatype Entry = Accepted(record: seq<byte>) | Dropped(count: nat)

  function Bytes(e: Entry): seq<byte> {
    match e
    case Accepted(r) => r
    case Dropped(n) => LostRecord(n)
  }

  function Records(entries: seq<Entry>): (rs: seq<seq<byte>>)
    ensures |rs| == |entries| && forall k :: 0 <= k < |entries| ==> rs[k] == Bytes(entries[k])
  {
    seq(|entries|, k requires 0 <= k < |entries| => Bytes(entries[k]))
  }

  function AcceptedOf(entries: seq<Entry>): seq<seq<byte>> {
    if entries == [] then []
    else
      var before, e := AcceptedOf(entries[..|entries| - 1]), entries[|entries| - 1];
      if e.Accepted? then before + [e.record] else before
  }

  function CountsOf(entries: seq<Entry>): nat {
    if entries == [] then 0
    else
      var before, e := CountsOf(entries[..|entries| - 1]), entries[|entries| - 1];
      if e.Dropped? then before + e.count else before
  }

  predicate GoodEntry(e: Entry) {
    match e
    case Accepted(r) => Framed(r)
    case Dropped(n) => 0 < n < U64
  }

  lemma Snoc(entries: seq<Entry>, e: Entry)
    ensures Flat(Records(entries + [e])) == Flat(Records(entries)) + Bytes(e)
    ensures AcceptedOf(entries + [e]) == if e.Accepted? then AcceptedOf(entries) + [e.record] else AcceptedOf(entries)
    ensures CountsOf(entries + [e]) == CountsOf(entries) + if e.Dropped? then e.count else 0
  {
    assert (entries + [e])[..|entries|] == entries;
    assert Records(entries + [e]) == Records(entries) + [Bytes(e)];
    FlatSnoc(Records(entries), Bytes(e));
  }

  lemma AllFramed(entries: seq<Entry>)
    requires forall k :: 0 <= k < |entries| ==> GoodEntry(entries[k])
    ensures forall k :: 0 <= k < |entries| ==> Framed(Records(entries)[k])
  {
    forall k | 0 <= k < |entries|
      ensures Framed(Records(entries)[k])
    {
      if entries[k].Dropped? {
        LostRecordReads(entries[k].count);
      }
    }
  }

  // ---- the sender -----------------------------------------------------------------------------------------

  function Count(send: int, write: int): int { (write - send) % BUF_LEN }
  function Idle(send: int, write: int): int { (send - (write + 1)) % BUF_LEN }

  lemma CountIdle(send: nat, write: nat)
    requires send < BUF_LEN && write < BUF_LEN
    ensures Count(send, write) == (if send <= write then write - send else BUF_LEN - send + write)
    ensures Idle(send, write) == BUF_LEN - 1 - Count(send, write)
  {
  }

  /** The bytes between send and write. */
  function Window(buf: seq<byte>, send: nat, write: nat): (w: seq<byte>)
    requires |buf| == BUF_LEN && send < BUF_LEN && write < BUF_LEN
  {
    if send <= write then buf[send..write] else buf[send..] + buf[..write]
  }

  /** memcpy(&buf[at], data, |data|) */
  method Copy(buf: array<byte>, at: nat, data: seq<byte>)
    requires at + |data| <= buf.Length
    modifies buf
    ensures buf[..] == old(buf[..])[..at] + data + old(buf[..])[at + |data|..]
  {
    for i := 0 to |data|
      invariant forall k :: 0 <= k < buf.Length ==>
        buf[k] == if at <= k < at + i then data[k - at] else old(buf[k])
    {
      buf[at + i] := data[i];
    }
  }

  /** Writing without wrapping. */
  lemma WriteStraight(buf: seq<byte>, send: nat, write: nat, data: seq<byte>)
    requires |buf| == BUF_LEN && send < BUF_LEN && write + |data| < BUF_LEN && |data| <= Idle(send, write)
    ensures var b := buf[..write] + data + buf[write + |data|..];
            Window(b, send, write + |data|) == Window(buf, send, write) + data
  {
    CountIdle(send, write);
    var b := buf[..write] + data + buf[write + |data|..];
    if send <= write {
      assert b[send..write + |data|] == buf[send..write] + data;
    } else {
      assert b[send..] == buf[send..];
      assert b[..write + |data|] == buf[..write] + data;
    }
  }

  /** Writing up to the end of the buffer. */
  lemma WriteToEnd(buf: seq<byte>, send: nat, write: nat, data: seq<byte>)
    requires |buf| == BUF_LEN && send < BUF_LEN && write < BUF_LEN && write + |data| == BUF_LEN && |data| <= Idle(send, write)
    ensures Window(buf[..write] + data, send, 0) == Window(buf, send, write) + data
    ensures Idle(send, 0) == Idle(send, write) - |data|
  {
    CountIdle(send, write);
    CountIdle(send, 0);
    var b := buf[..write] + data;
    assert send <= write;
    assert b[send..] == buf[send..write] + data;
    assert send == 0 ==> |data| == 0;
  }

  lemma IdleLess(send: nat, write: nat)
    requires send < BUF_LEN && write < BUF_LEN
    ensures Idle(send, write) < BUF_LEN && (send > 0 ==> Idle(send, 0) < BUF_LEN)
  {
    CountIdle(send, write);
  }

  /** A call of send(2) with n bytes: it takes some of them, or none. */
  datatype Offer = Offer(n: nat, ret: int)

  /**
   * All c bytes of the buffer are offered, in two parts if they go round its end `room` bytes on; the
   * second part only if the first has been taken whole.
   */
  predicate Offered(was: seq<Offer>, now: seq<Offer>, c: int, room: int) {
    && was <= now
    && (c == 0 ==> now == was)
    && (0 < c < room ==> |now| == |was| + 1 && now[|was|].n == c)
    && (0 < room <= c ==>
          && |was| < |now| && now[|was|].n == room
          && |now| == |was| + (if now[|was|].ret == room && room < c then 2 else 1)
          && (|now| == |was| + 2 ==> now[|was| + 1].n == c - room))
  }

  /** The last part has been taken, at least a beginning of it. */
  predicate Finished(was: seq<Offer>, now: seq<Offer>, c: int, room: int) {
    || c == 0
    || (0 < c < room && |was| < |now| && now[|was|].ret > 0)
    || (0 < room <= c && |was| < |now| && now[|was|].ret == room && (room < c ==> |was| + 1 < |now| && now[|was| + 1].ret > 0))
  }

  predicate AllTaken(was: seq<Offer>, now: seq<Offer>) {
    forall k :: |was| <= k < |now| ==> now[k].ret == now[k].n
  }

  class Sender {
    const buf: array<byte>
    var send: nat
    var write: nat
    var lost: nat
    /** Everything handed to the socket. */
    var wire: seq<byte>
    ghost var entries: seq<Entry>
    /** What has been offered to the socket, and what it answered. */
    ghost var offers: seq<Offer>
    /** The tcp_send calls whose record was not taken. */
    ghost var drops: nat

    ghost predicate Shape()
      reads this
    {
      buf.Length == BUF_LEN && send < BUF_LEN && write < BUF_LEN
    }

    ghost function Contents(): seq<byte>
      requires Shape()
      reads this, buf
    {
      Window(buf[..], send, write)
    }

    /** The bytes on the wire and in the buffer are the entries; drops are counted in LOST records or pending. */
    ghost predicate Valid()
      reads this, buf
    {
      && Shape() && Flat(Records(entries)) == wire + Contents()
      && (forall k :: 0 <= k < |entries| ==> GoodEntry(entries[k])) && lost < U64
      && (drops < U64 ==> drops == CountsOf(entries) + lost)
    }

    constructor ()
      ensures Valid() && entries == [] && wire == [] && lost == 0 && fresh(buf)
    {
      buf := new byte[BUF_LEN](i => 0);
      send, write, lost := 0, 0, 0;
      wire, entries, offers, drops := [], [], [], 0;
    }

    /** buf_write */
    method BufWrite(data: seq<byte>)
      requires Shape() && |data| <= Idle(send, write)
      modifies buf, this`write
      ensures Shape() && Contents() == old(Contents()) + data
    {
      hide Idle, Window;
      var rest := data;
      IdleLess(send, write);
      if write + |rest| >= BUF_LEN {
        var n := BUF_LEN - write;
        ghost var was := buf[..];
        WriteToEnd(was, send, write, rest[..n]);
        Copy(buf, write, rest[..n]);
        assert buf[..] == was[..write] + data[..n];
        write := 0;
        rest := rest[n..];
        Assoc(old(Contents()), data[..n], rest);
        assert data[..n] + rest == data;
        assert Contents() + rest == old(Contents()) + data;
      }
      if |rest| > 0 {
        WriteStraight(buf[..], send, write, rest);
        Copy(buf, write, rest);
        write := write + |rest|;
      }
    }

    /** Sends up to n bytes from `send` on: the socket takes some, or none. */
    method SendSome(n: nat) returns (ret: int)
      requires Shape() && send + n <= BUF_LEN && n <= Count(send, write)
      modifies this`send, this`wire, this`offers
      ensures Shape() && -1 <= ret <= n && wire + Contents() == old(wire + Contents()) && old(wire) <= wire
      ensures offers == old(offers) + [Offer(n, ret)]
      ensures ret <= 0 ==> send == old(send) && wire == old(wire)
      ensures ret > 0 ==> send == (old(send) + ret) % BUF_LEN && Count(send, write) == old(Count(send, write)) - ret
    {
      hide Count, Window;
      ret :| -1 <= ret <= n;
      offers := offers + [Offer(n, ret)];
      if ret > 0 {
        SentStraight(buf[..], send, write, ret);
        wire := wire + buf[send..send + ret];
        send := (send + ret) % BUF_LEN;
      }
    }

    /** buf_send: what is in the buffer goes out, all or part of it, and then the drops are reported if there is room. */
    method BufSend() returns (ret: int)
      requires Valid()
      modifies this`send, this`wire, this`write, this`lost, this`entries, this`offers, buf
      ensures Valid() && drops == old(drops) && ret <= 0 && old(wire) <= wire
      ensures Offered(old(offers), offers, old(Count(send, write)), BUF_LEN - old(send))
      ensures AllTaken(old(offers), offers) ==> wire == old(wire + Contents())
      ensures if Finished(old(offers), offers, old(Count(send, write)), BUF_LEN - old(send))
              then lost == 0 || Idle(send, write) <= LOST_SIZE else entries == old(entries)
      ensures entries != old(entries) ==> Idle(send, write) > 0
      ensures entries == old(entries) || (old(lost) > 0 && entries == old(entries) + [Dropped(old(lost))] && lost == 0)
      ensures entries == old(entries) ==> lost == old(lost)
      ensures old(Count(send, write)) == 0 && old(lost) > 0 ==> entries == old(entries) + [Dropped(old(lost))]
    {
      hide Flat, Records, CountsOf, GoodEntry, Count, Idle, Window;
      var len := Count(send, write);
      CountIdle(send, write);
      if send + len >= BUF_LEN {
        var n := BUF_LEN - send;
        var r := SendSome(n);
        if r <= 0 { return r; }
        if r != n { return 0; }
        len := len - r;
        CountIdle(send, write);
      }
      if len > 0 {
        var r := SendSome(len);
        if r <= 0 { return r; }
      }
      NothingLeft(buf[..], send, write);
      ReportDrops();
      return 0;
    }

    method ReportDrops()
      requires Valid()
      modifies this`write, this`lost, this`entries, buf
      ensures Valid()
      ensures entries == old(entries) || (old(lost) > 0 && entries == old(entries) + [Dropped(old(lost))] && lost == 0)
      ensures entries == old(entries) ==> lost == old(lost)
      ensures old(lost) > 0 && old(Idle(send, write)) > LOST_SIZE ==>
                entries == old(entries) + [Dropped(old(lost))] && Idle(send, write) == old(Idle(send, write)) - LOST_SIZE
      ensures old(lost) == 0 || old(Idle(send, write)) <= LOST_SIZE ==> entries == old(entries) && write == old(write)
    {
      hide Flat, Records, CountsOf, AcceptedOf;
      if lost > 0 && Idle(send, write) > LOST_SIZE {
        ghost var was := Contents();
        BufWrite(LostRecord(lost));
        Snoc(entries, Dropped(lost));
        Assoc(wire, was, LostRecord(lost));
        entries := entries + [Dropped(lost)];
        lost := 0;
      }
    }

    /** tcp_send: the record is taken whole, or counted as lost. */
    method TcpSend(record: seq<byte>) returns (taken: bool)
      requires Valid() && Framed(record)
      modifies this, buf
      ensures Valid() && old(wire) <= wire && old(entries) <= entries
      ensures taken ==> drops == old(drops) && AcceptedOf(entries) == AcceptedOf(old(entries)) + [record]
      ensures !taken ==> drops == old(drops) + 1 && AcceptedOf(entries) == AcceptedOf(old(entries))
      ensures old(Idle(send, write)) >= |record| ==> taken && entries == old(entries) + [Accepted(record)] && lost == old(lost)
      ensures if old(Idle(send, write)) >= |record| then offers == old(offers)
              else Offered(old(offers), offers, old(Count(send, write)), BUF_LEN - old(send))
      ensures !taken ==> Idle(send, write) < |record| && lost == (if entries == old(entries) then old(lost) + 1 else 1) % U64
    {
      hide Flat, Records, CountsOf, AcceptedOf, Window, Idle;
      if Idle(send, write) < |record| {
        var r := BufSend();
        if entries != old(entries) {
          Snoc(old(entries), Dropped(old(lost)));
        }
      }
      taken := Idle(send, write) >= |record|;
      if taken {
        Accept(record);
      } else {
        Drop();
      }
    }

    method Drop()
      requires Valid()
      modifies this`lost, this`drops
      ensures Valid() && drops == old(drops) + 1 && lost == (old(lost) + 1) % U64
    {
      hide Flat, Records, CountsOf, Window;
      lost := (lost + 1) % U64;
      drops := drops + 1;
    }

    method Accept(record: seq<byte>)
      requires Valid() && Framed(record) && |record| <= Idle(send, write)
      modifies this`write, this`entries, buf
      ensures Valid() && entries == old(entries) + [Accepted(record)]
      ensures AcceptedOf(entries) == AcceptedOf(old(entries)) + [record]
    {
      hide Flat, Records, CountsOf, AcceptedOf, Idle, Window;
      ghost var was := Contents();
      BufWrite(record);
      Snoc(entries, Accepted(record));
      Assoc(wire, was, record);
      entries := entries + [Accepted(record)];
    }
  }

  lemma NothingLeft(buf: seq<byte>, send: nat, write: nat)
    requires |buf| == BUF_LEN && send < BUF_LEN && write < BUF_LEN
    ensures Count(send, write) == 0 ==> Window(buf, send, write) == []
  {
    CountIdle(send, write);
  }

  lemma Assoc(a: seq<byte>, b: seq<byte>, c: seq<byte>)
    ensures (a + b) + c == a + (b + c)
  {
  }

  lemma SentStraight(buf: seq<byte>, send: nat, write: nat, n: nat)
    requires |buf| == BUF_LEN && send < BUF_LEN && write < BUF_LEN && 0 < n <= Count(send, write) && send + n <= BUF_LEN
    ensures buf[send..send + n] + Window(buf, (send + n) % BUF_LEN, write) == Window(buf, send, write)
    ensures Count((send + n) % BUF_LEN, write) == Count(send, write) - n
  {
    hide Count, Idle;
    CountIdle(send, write);
    var t := if send + n == BUF_LEN then 0 else send + n;
    assert t == (send + n) % BUF_LEN;
    CountIdle(t, write);
    SentWindow(buf, send, write, n, t);
  }

  lemma SentWindow(buf: seq<byte>, send: nat, write: nat, n: nat, t: nat)
    requires |buf| == BUF_LEN && send < BUF_LEN && write < BUF_LEN && send + n <= BUF_LEN
    requires send <= write ==> send + n <= write
    requires t == if send + n == BUF_LEN then 0 else send + n
    ensures buf[send..send + n] + Window(buf, t, write) == Window(buf, send, write)
  {
    if send > write {
      assert buf[send..] == buf[send..send + n] + buf[send + n..];
      if send + n == BUF_LEN {
        assert buf[send..send + n] == buf[send..];
      } else {
        Assoc(buf[send..send + n], buf[send + n..], buf[..write]);
      }
    }
  }

  // ---- the receiver -----------------------------------------------------------------------------------------

  /** Processed records, and the leftover that does not hold the next one yet. */
  ghost predicate Reassembled(records: seq<seq<byte>>, received: seq<byte>, processed: seq<seq<byte>>, left: seq<byte>) {
    && |processed| <= |records| && processed == records[..|processed|] && received == Flat(processed) + left
    && (if |processed| == |records| then left == []
        else |left| < |records[|processed|]| && Prefix(left, records[|processed|]))
  }

  /** What has arrived in the buffer belongs to the stream from the next record on. */
  ghost predicate OnStream(records: seq<seq<byte>>, processed: seq<seq<byte>>, left: seq<byte>) {
    |processed| <= |records| && processed == records[..|processed|] && Prefix(left, Flat(records[|processed|..]))
  }

  lemma FlatHead(rs: seq<seq<byte>>)
    requires rs != []
    ensures Flat(rs) == rs[0] + Flat(rs[1..])
  {
    FlatSplit(rs, 1);
    assert rs[..1] == [rs[0]];
    assert Flat([rs[0]]) == rs[0] by { assert [rs[0]][..0] == []; }
  }

  lemma NotFinished(records: seq<seq<byte>>, processed: seq<seq<byte>>, left: seq<byte>)
    requires OnStream(records, processed, left)
    ensures left != [] ==> |processed| < |records|
  {
    assert |processed| == |records| ==> records[|processed|..] == [];
  }

  /** A buffer that starts with the next record's header tells its size. */
  lemma NextSize(records: seq<seq<byte>>, processed: seq<seq<byte>>, left: seq<byte>)
    requires OnStream(records, processed, left) && |left| > HEADER && forall k :: 0 <= k < |records| ==> Framed(records[k])
    ensures |processed| < |records| && SizeOf(left) == |records[|processed|]|
    ensures |left| >= SizeOf(left) ==>
              left[..SizeOf(left)] == records[|processed|]
              && OnStream(records, processed + [records[|processed|]], left[SizeOf(left)..])
  {
    NotFinished(records, processed, left);
    var k := |processed|;
    var rest := records[k..];
    FlatHead(rest);
    assert rest[0] == records[k] && rest[1..] == records[k + 1..];
    var all := Flat(rest);
    assert left == all[..|left|];
    assert forall i :: 0 <= i < HEADER ==> left[i] == all[i] == records[k][i];
    if |left| >= SizeOf(left) {
      var n := |records[k]|;
      assert all[..n] == records[k] && all[n..] == Flat(records[k + 1..]);
      assert left[..n] == all[..n];
      assert left[n..] == all[n..|left|] == all[n..][..|left| - n];
      assert processed + [records[k]] == records[..k + 1];
    }
  }

  /** When the loop stops, the leftover is part of the next record. */
  lemma Stuck(records: seq<seq<byte>>, processed: seq<seq<byte>>, left: seq<byte>)
    requires OnStream(records, processed, left) && forall k :: 0 <= k < |records| ==> Framed(records[k])
    requires |left| <= HEADER || |left| < SizeOf(left)
    ensures if |processed| == |records| then left == []
            else |left| < |records[|processed|]| && Prefix(left, records[|processed|])
  {
    NotFinished(records, processed, left);
    if |processed| < |records| {
      var k := |processed|;
      var rest := records[k..];
      FlatHead(rest);
      assert rest[0] == records[k];
      if |left| > HEADER {
        NextSize(records, processed, left);
      }
      assert |left| < |records[k]|;
      assert left == Flat(rest)[..|left|] == records[k][..|left|];
    }
  }

  class Receiver {
    const copy: array<byte>
    var read: nat
    /** Records handed to block_process_event. */
    var processed: seq<seq<byte>>
    /** Everything received so far. */
    var received: seq<byte>

    ghost predicate Shape()
      reads this
    {
      copy.Length == BUF_LEN && read <= BUF_LEN
    }

    ghost predicate Valid(records: seq<seq<byte>>)
      reads this, copy
    {
      && Shape() && (forall k :: 0 <= k < |records| ==> Framed(records[k]))
      && Reassembled(records, received, processed, copy[..read])
    }

    constructor ()
      ensures Valid([]) && processed == [] && received == [] && read == 0 && fresh(copy)
    {
      copy := new byte[BUF_LEN](i => 0);
      read, processed, received := 0, [], [];
    }

    /** tcp_process_event: hands over whole records; returns the bytes used. */
    method ProcessEvents(ghost records: seq<seq<byte>>) returns (used: nat)
      requires Shape() && OnStream(records, processed, copy[..read]) && forall k :: 0 <= k < |records| ==> Framed(records[k])
      modifies this`processed
      ensures used <= read && OnStream(records, processed, copy[used..read]) && old(processed) <= processed
      ensures Flat(processed) == old(Flat(processed)) + copy[..used]
      ensures read - used <= HEADER || read - used < SizeOf(copy[used..read])
    {
      hide Flat, OnStream, SizeOf, Framed;
      used := 0;
      while read - used > HEADER && read - used >= SizeOf(copy[used..read])
        invariant used <= read && OnStream(records, processed, copy[used..read]) && old(processed) <= processed
        invariant Flat(processed) == old(Flat(processed)) + copy[..used]
        decreases read - used
      {
        var n := HandOver(records, used);
        Assoc(old(Flat(processed)), copy[..used], copy[used..used + n]);
        assert copy[..used] + copy[used..used + n] == copy[..used + n];
        used := used + n;
      }
    }

    /** One whole record is handed over. */
    method HandOver(ghost records: seq<seq<byte>>, used: nat) returns (n: nat)
      requires Shape() && used <= read && OnStream(records, processed, copy[used..read])
      requires read - used > HEADER && read - used >= SizeOf(copy[used..read]) && forall k :: 0 <= k < |records| ==> Framed(records[k])
      modifies this`processed
      ensures 0 < n <= read - used && OnStream(records, processed, copy[used + n..read])
      ensures old(processed) <= processed && Flat(processed) == old(Flat(processed)) + copy[used..used + n]
    {
      hide Flat;
      ghost var left := copy[used..read];
      NextSize(records, processed, left);
      n := SizeOf(copy[used..read]);
      assert left[..n] == copy[used..used + n] && left[n..] == copy[used + n..read];
      FlatSnoc(processed, copy[used..used + n]);
      processed := processed + [copy[used..used + n]];
    }

    /** One turn of the receive loop of handle_inout: recv gave a chunk that fits. */
    method Receive(chunk: seq<byte>, ghost records: seq<seq<byte>>)
      requires Valid(records) && 0 < |chunk| <= BUF_LEN - read && Prefix(received + chunk, Flat(records))
      modifies this, copy
      ensures Valid(records) && received == old(received) + chunk && old(processed) <= processed && read < BUF_LEN
    {
      hide Flat, OnStream, Prefix, SizeOf;
      ghost var left := copy[..read];
      Take(chunk);
      Arrived(records, received, processed, left, chunk);
      var used := ProcessEvents(records);
      Settled(records, received + chunk, old(Flat(processed)), processed, copy[..read], used);
      received := received + chunk;
      Shift(used);
    }

    /** recv into the free part of the buffer. */
    method Take(chunk: seq<byte>)
      requires Shape() && |chunk| <= BUF_LEN - read
      modifies this`read, copy
      ensures Shape() && read == old(read) + |chunk| && copy[..read] == old(copy[..read]) + chunk
    {
      Copy(copy, read, chunk);
      read := read + |chunk|;
    }

    /** The leftover moves to the front. */
    method Shift(used: nat)
      requires Shape() && used <= read
      modifies this`read, copy
      ensures Shape() && read == old(read) - used && copy[..read] == old(copy[used..read])
    {
      Copy(copy, 0, copy[used..read]);
      read := read - used;
    }
  }

  lemma Settled(records: seq<seq<byte>>, received: seq<byte>, before: seq<byte>, processed: seq<seq<byte>>, all: seq<byte>, used: nat)
    requires forall k :: 0 <= k < |records| ==> Framed(records[k])
    requires used <= |all| && received == before + all && Flat(processed) == before + all[..used]
    requires OnStream(records, processed, all[used..])
    requires |all[used..]| <= HEADER || |all[used..]| < SizeOf(all[used..])
    ensures Reassembled(records, received, processed, all[used..]) && |all[used..]| < BUF_LEN
  {
    hide Flat;
    Stuck(records, processed, all[used..]);
    Assoc(before, all[..used], all[used..]);
    assert all[..used] + all[used..] == all;
    if |processed| < |records| {
      assert Framed(records[|processed|]);
    }
  }

  lemma Arrived(records: seq<seq<byte>>, received: seq<byte>, processed: seq<seq<byte>>, left: seq<byte>, chunk: seq<byte>)
    requires Reassembled(records, received, processed, left) && Prefix(received + chunk, Flat(records))
    ensures OnStream(records, processed, left + chunk)
    ensures received + chunk == Flat(processed) + (left + chunk)
  {
    var k := |processed|;
    FlatSplit(records, k);
    var a, b, all := Flat(processed), Flat(records[k..]), Flat(records);
    Assoc(a, left, chunk);
    assert all == a + b;
    assert left + chunk == (a + (left + chunk))[|a|..] == all[..|a| + |left + chunk|][|a|..];
  }

  // ---- end to end ---------------------------------------------------------------------------------------------

  lemma ReassembledMore(records: seq<seq<byte>>, more: seq<seq<byte>>, received: seq<byte>, processed: seq<seq<byte>>, left: seq<byte>)
    requires Reassembled(records, received, processed, left) && records <= more
    requires forall k :: 0 <= k < |more| ==> Framed(more[k])
    ensures Reassembled(more, received, processed, left)
  {
    hide Flat;
    if |processed| == |records| && |processed| < |more| {
      assert Framed(more[|processed|]);
    }
  }

  /** Everything sent has arrived: every record has been processed. */
  lemma AllProcessed(records: seq<seq<byte>>, received: seq<byte>, processed: seq<seq<byte>>, left: seq<byte>)
    requires Reassembled(records, received, processed, left) && received == Flat(records)
    ensures processed == records && left == []
  {
    var k := |processed|;
    if k < |records| {
      FlatNext(records, k);
      assert false;
    }
  }

  /** A sender and a receiver joined by a connection that delivers bytes in order, in any portions. */
  class Link {
    const sender: Sender
    const receiver: Receiver

    /** What the receiver has processed is the beginning of what was sent, and nothing complete is left over. */
    ghost predicate Valid()
      reads this, sender, sender.buf, receiver, receiver.copy
    {
      && sender.buf != receiver.copy && sender.Valid() && receiver.Valid(Records(sender.entries))
      && receiver.received <= sender.wire && receiver.read < BUF_LEN
    }

    constructor ()
      ensures Valid() && fresh(sender) && fresh(receiver) && fresh(sender.buf) && fresh(receiver.copy)
      ensures sender.entries == [] && receiver.processed == []
    {
      sender := new Sender();
      receiver := new Receiver();
      new;
      assert Records(sender.entries) == [];
    }

    /** The records processed are, in order, those sent; once all bytes are through, all of them. */
    lemma EndToEnd()
      requires Valid()
      ensures receiver.processed <= Records(sender.entries)
      ensures receiver.received == sender.wire && sender.Contents() == [] ==> receiver.processed == Records(sender.entries)
      ensures sender.drops < U64 ==> sender.drops == CountsOf(sender.entries) + sender.lost
    {
      hide Flat, CountsOf;
      if receiver.received == sender.wire && sender.Contents() == [] {
        assert receiver.received == Flat(Records(sender.entries));
        AllProcessed(Records(sender.entries), receiver.received, receiver.processed, receiver.copy[..receiver.read]);
      }
    }

    /** tcp_send on the sending side. */
    method Send(record: seq<byte>) returns (taken: bool)
      requires Valid() && Framed(record)
      modifies sender, sender.buf
      ensures Valid()
      ensures taken ==> sender.drops == old(sender.drops) && AcceptedOf(sender.entries) == AcceptedOf(old(sender.entries)) + [record]
      ensures !taken ==> sender.drops == old(sender.drops) + 1 && AcceptedOf(sender.entries) == AcceptedOf(old(sender.entries))
    {
      hide Flat, Records, AcceptedOf, Reassembled;
      taken := sender.TcpSend(record);
      Extended(old(sender.entries), sender.entries, receiver.received, receiver.processed, receiver.copy[..receiver.read]);
    }

    /** The socket can take more bytes. */
    method Pump()
      requires Valid()
      modifies sender, sender.buf
      ensures Valid() && sender.drops == old(sender.drops) && AcceptedOf(sender.entries) == AcceptedOf(old(sender.entries))
      ensures Offered(old(sender.offers), sender.offers, old(Count(sender.send, sender.write)), BUF_LEN - old(sender.send))
      ensures AllTaken(old(sender.offers), sender.offers) ==> sender.wire == old(sender.wire + sender.Contents())
    {
      hide Flat, Records, AcceptedOf, Reassembled, CountsOf, Window, Count, Offered, AllTaken;
      var r := sender.BufSend();
      if sender.entries != old(sender.entries) {
        Snoc(old(sender.entries), Dropped(old(sender.lost)));
      }
      Extended(old(sender.entries), sender.entries, receiver.received, receiver.processed, receiver.copy[..receiver.read]);
    }

    /** recv returns the next n bytes that fit. */
    method Deliver(n: nat)
      requires Valid() && 0 < n <= BUF_LEN - receiver.read && |receiver.received| + n <= |sender.wire|
      modifies receiver, receiver.copy
      ensures Valid() && receiver.received == sender.wire[..|old(receiver.received)| + n]
      ensures old(receiver.processed) <= receiver.processed
    {
      hide Flat, Records, Reassembled;
      ghost var got := receiver.received;
      var chunk := sender.wire[|receiver.received|..|receiver.received| + n];
      assert got + chunk == sender.wire[..|got| + n];
      assert Prefix(got + chunk, Flat(Records(sender.entries)));
      receiver.Receive(chunk, Records(sender.entries));
    }
  }

  lemma Extended(was: seq<Entry>, now: seq<Entry>, received: seq<byte>, processed: seq<seq<byte>>, left: seq<byte>)
    requires was <= now && forall k :: 0 <= k < |now| ==> GoodEntry(now[k])
    requires Reassembled(Records(was), received, processed, left)
    ensures Reassembled(Records(now), received, processed, left)
    ensures forall k :: 0 <= k < |Records(now)| ==> Framed(Records(now)[k])
  {
    hide Flat, Reassembled;
    AllFramed(now);
    ReassembledMore(Records(was), Records(now), received, processed, left);
  }
}
