/** The receive ring in the chip's buffer memory: how received frames are laid out, how much room
    the receive engine sees, and why what it writes never meets what the host has not read.

    Addresses are followed through *positions*: a position is any natural number and stands for the
    address `At(p)`.  Unread data begin at position `h`, the engine writes at position `w`, and the
    read limit ERXRDPT is position `r`, with h <= w < r < w + SIZE.  Going round the ring is then
    simply counting on.  As long as also r < h + SIZE the engine is kept away from unread data; the
    receive error branch of the driver may put the limit further ahead. */
module RxRing {
  import opened Bytes

  const RX_START := 0x7D0
  const RX_END := 0x1EFF
  const SIZE := 5936    // RX_END - RX_START + 1
  const MEM_SIZE := 8192

  type Memory = m: seq<Byte> | |m| == MEM_SIZE witness seq(MEM_SIZE, _ => 0)

  /** A frame with the two status bytes the chip stores for it. */
  datatype Frame = Frame(data: seq<Byte>, status: Byte, status2: Byte)

  /** The address that follows `a` when `nd` is followed by `st`. */
  function Inc(a: nat, st: nat, nd: nat): nat {
    if a == nd then st else if a + 1 == MEM_SIZE then 0 else a + 1
  }

  function At(p: nat): (a: nat)
    ensures RX_START <= a <= RX_END
  {
    if p < SIZE then RX_START + p else At(p - SIZE)
  }

  lemma {:induction false} AtPlus(p: nat, n: nat)
    requires n <= SIZE
    ensures At(p + n) == if At(p) + n > RX_END then At(p) + n - SIZE else At(p) + n
  {
    if p >= SIZE { AtPlus(p - SIZE, n); }
  }

  lemma AtSucc(p: nat)
    ensures At(p + 1) == Inc(At(p), RX_START, RX_END)
    ensures At(p + SIZE) == At(p)
  {
    AtPlus(p, 1);
  }

  lemma {:induction false} AtParity(p: nat)
    ensures At(p) % 2 == p % 2
  {
    if p >= SIZE { AtParity(p - SIZE); }
  }

  lemma AtInjective(p: nat, q: nat)
    requires p <= q < p + SIZE && At(p) == At(q)
    ensures p == q
  {
    AtPlus(p, q - p);
  }

  /** Bytes a record takes, with the padding byte that keeps the next one on an even address. */
  function RecLen(f: Frame): nat { 6 + |f.data| + |f.data| % 2 }

  /** What is stored: pointer to the next record, length, status, frame bytes. */
  function Record(f: Frame, next: nat): (s: seq<Byte>)
    requires |f.data| < 65536 && next < MEM_SIZE
    ensures |s| == 6 + |f.data|
  {
    [next % 256, next / 256, |f.data| % 256, |f.data| / 256, f.status, f.status2] + f.data
  }

  /** The chip's own free space computation (Example 7-1 of the ENC28J60 data sheet). */
  function FreeSpace(wr: nat, rd: nat, st: nat, nd: nat): int {
    if wr > rd then (nd - st) - (wr - rd)
    else if wr == rd then nd - st
    else rd - wr - 1
  }

  lemma FreeSpaceExact(w: nat, r: nat)
    requires w < r < w + SIZE
    ensures FreeSpace(At(w), At(r), RX_START, RX_END) == r - w - 1
  {
    AtPlus(w, r - w);
  }

  /** Stores bytes one after the other from address `a` on. */
  function Store(mem: Memory, a: nat, bytes: seq<Byte>, st: nat, nd: nat): Memory
    requires a < MEM_SIZE && st < MEM_SIZE
    decreases |bytes|
  {
    if bytes == [] then mem
    else Store(mem[a := bytes[0]], Inc(a, st, nd), bytes[1..], st, nd)
  }

  lemma {:induction false} StoreInRing(mem: Memory, p: nat, bytes: seq<Byte>)
    requires |bytes| <= SIZE
    ensures var mem' := Store(mem, At(p), bytes, RX_START, RX_END);
            && (forall i :: 0 <= i < |bytes| ==> mem'[At(p + i)] == bytes[i])
            && (forall q :: p + |bytes| <= q < p + SIZE ==> mem'[At(q)] == mem[At(q)])
            && (forall a :: 0 <= a < MEM_SIZE && !(RX_START <= a <= RX_END) ==> mem'[a] == mem[a])
    decreases |bytes|
  {
    if bytes != [] {
      var mem1 := mem[At(p) := bytes[0]];
      var mem' := Store(mem, At(p), bytes, RX_START, RX_END);
      AtSucc(p);
      StoreInRing(mem1, p + 1, bytes[1..]);
      forall i | 0 <= i < |bytes| ensures mem'[At(p + i)] == bytes[i] {
        if i == 0 {
          assert mem'[At(p + SIZE)] == mem1[At(p + SIZE)];
        } else {
          assert mem'[At(p + 1 + (i - 1))] == bytes[1..][i - 1];
        }
      }
      forall q | p + |bytes| <= q < p + SIZE ensures mem'[At(q)] == mem[At(q)] {
        if At(q) == At(p) { AtInjective(p, q); }
      }
    }
  }

  /** Where nothing wraps, storing is replacing a slice. */
  lemma {:induction false} StoreLinear(mem: Memory, a: nat, bytes: seq<Byte>, st: nat, nd: nat)
    requires st < MEM_SIZE && a + |bytes| < MEM_SIZE
    requires nd < a || a + |bytes| <= nd
    ensures Store(mem, a, bytes, st, nd) == mem[..a] + bytes + mem[a + |bytes|..]
    decreases |bytes|
  {
    if bytes != [] {
      StoreLinear(mem[a := bytes[0]], a + 1, bytes[1..], st, nd);
    }
  }

  /** Fetches `n` bytes one after the other from address `a` on. */
  function Fetch(mem: Memory, a: nat, n: nat, st: nat, nd: nat): (s: seq<Byte>)
    requires a < MEM_SIZE && st < MEM_SIZE
    ensures |s| == n
    decreases n
  {
    if n == 0 then [] else [mem[a]] + Fetch(mem, Inc(a, st, nd), n - 1, st, nd)
  }

  /** Where the pointer stands afterwards. */
  function Advance(a: nat, n: nat, st: nat, nd: nat): (a': nat)
    requires a < MEM_SIZE && st < MEM_SIZE
    ensures a' < MEM_SIZE
    decreases n
  {
    if n == 0 then a else Advance(Inc(a, st, nd), n - 1, st, nd)
  }

  lemma {:induction false} FetchInRing(mem: Memory, p: nat, n: nat)
    ensures Advance(At(p), n, RX_START, RX_END) == At(p + n)
    ensures StoredAt(mem, p, Fetch(mem, At(p), n, RX_START, RX_END))
    decreases n
  {
    if n > 0 {
      AtSucc(p);
      FetchInRing(mem, p + 1, n - 1);
      forall i | 0 <= i < n ensures Fetch(mem, At(p), n, RX_START, RX_END)[i] == mem[At(p + i)] {
        if i > 0 {
          assert Fetch(mem, At(p + 1), n - 1, RX_START, RX_END)[i - 1] == mem[At(p + 1 + (i - 1))];
        }
      }
    }
  }

  // ---------------------------------------------------------------- frames waiting in the ring

  /** The bytes `s` are in memory from position `p` on. */
  ghost predicate StoredAt(mem: Memory, p: nat, s: seq<Byte>) {
    forall i :: 0 <= i < |s| ==> s[i] == mem[At(p + i)]
  }

  lemma StoredUnique(mem: Memory, p: nat, s: seq<Byte>, t: seq<Byte>)
    requires StoredAt(mem, p, s) && StoredAt(mem, p, t) && |s| == |t|
    ensures s == t
  {
  }

  lemma StoredSuffix(mem: Memory, p: nat, s: seq<Byte>, n: nat)
    requires StoredAt(mem, p, s) && n <= |s|
    ensures StoredAt(mem, p, s[..n]) && StoredAt(mem, p + n, s[n..])
  {
    forall i | 0 <= i < |s| - n ensures s[n..][i] == mem[At(p + n + i)] {
      assert s[n + i] == mem[At(p + (n + i))];
    }
  }

  /** The record of frame `f` with next-packet pointer `next` is in memory from position `p` on, as far as
      its bytes stand at position `lo` or later. */
  ghost predicate RecordAt(mem: Memory, lo: int, p: nat, f: Frame, next: nat) {
    && |f.data| < 65536 && next < MEM_SIZE
    && forall i :: 0 <= i < 6 + |f.data| && lo <= p + i ==> RecordByte(f, next, i) == mem[At(p + i)]
  }

  function RecordByte(f: Frame, next: nat, i: nat): Byte
    requires |f.data| < 65536 && next < MEM_SIZE && i < 6 + |f.data|
  {
    Record(f, next)[i]
  }

  lemma RecordAtIsStored(mem: Memory, lo: int, p: nat, f: Frame, next: nat)
    requires |f.data| < 65536 && next < MEM_SIZE && lo <= p
    ensures RecordAt(mem, lo, p, f, next) <==> StoredAt(mem, p, Record(f, next))
  {
    var s := Record(f, next);
    assert forall i :: 0 <= i < |s| ==> s[i] == RecordByte(f, next, i);
  }

  /** The frame behind the six bytes of the head. */
  lemma BodyIsStored(mem: Memory, lo: int, p: nat, f: Frame, next: nat)
    requires RecordAt(mem, lo, p, f, next) && lo <= p + 6
    ensures StoredAt(mem, p + 6, f.data)
  {
    forall i | 0 <= i < |f.data| ensures f.data[i] == mem[At(p + 6 + i)] {
      assert RecordByte(f, next, 6 + i) == f.data[i];
      assert p + 6 + i == p + (6 + i);
    }
  }

  function Span(q: seq<Frame>): nat {
    if q == [] then 0 else RecLen(q[0]) + Span(q[1..])
  }

  /** The records of the frames `q` follow one another in memory from position `p` on, as far as their bytes
      stand at position `lo` or later. */
  ghost predicate Holds(mem: Memory, lo: int, p: nat, q: seq<Frame>)
    decreases |q|
  {
    q == [] || (RecordAt(mem, lo, p, q[0], At(p + RecLen(q[0]))) && Holds(mem, lo, p + RecLen(q[0]), q[1..]))
  }

  lemma {:induction false} SpanAppend(q: seq<Frame>, f: Frame)
    ensures Span(q + [f]) == Span(q) + RecLen(f)
  {
    if q == [] {
      assert [f][1..] == [];
    } else {
      assert (q + [f])[1..] == q[1..] + [f];
      SpanAppend(q[1..], f);
    }
  }

  lemma {:induction false} SpanEven(q: seq<Frame>)
    ensures Span(q) % 2 == 0
  {
    if q != [] { SpanEven(q[1..]); }
  }

  /** Only the bytes from `lo` up to the write position matter. */
  lemma {:induction false} HoldsFrame(mem: Memory, mem': Memory, lo: int, p: nat, q: seq<Frame>)
    requires Holds(mem, lo, p, q)
    requires forall i :: p <= i < p + Span(q) && lo <= i ==> mem'[At(i)] == mem[At(i)]
    ensures Holds(mem', lo, p, q)
    decreases |q|
  {
    if q != [] {
      var f := q[0];
      var next := At(p + RecLen(f));
      forall i | 0 <= i < 6 + |f.data| && lo <= p + i ensures RecordByte(f, next, i) == mem'[At(p + i)] {
        assert mem'[At(p + i)] == mem[At(p + i)];
      }
      HoldsFrame(mem, mem', lo, p + RecLen(f), q[1..]);
    }
  }

  lemma {:induction false} HoldsLater(mem: Memory, lo: int, lo': int, p: nat, q: seq<Frame>)
    requires Holds(mem, lo, p, q) && lo <= lo'
    ensures Holds(mem, lo', p, q)
    decreases |q|
  {
    if q != [] { HoldsLater(mem, lo, lo', p + RecLen(q[0]), q[1..]); }
  }

  lemma {:induction false} HoldsAppend(mem: Memory, lo: int, p: nat, q: seq<Frame>, f: Frame)
    requires Holds(mem, lo, p, q) && RecordAt(mem, lo, p + Span(q), f, At(p + Span(q) + RecLen(f)))
    ensures Holds(mem, lo, p, q + [f])
    decreases |q|
  {
    if q == [] {
      assert [f][1..] == [];
    } else {
      assert (q + [f])[1..] == q[1..] + [f];
      HoldsAppend(mem, lo, p + RecLen(q[0]), q[1..], f);
    }
  }

  // ---------------------------------------------------------------- the ring invariant

  /** With `n` bytes waiting from position `h` on, the engine writes at `wr` and may write up to but
      excluding `rd`, position `r`. */
  ghost predicate PointersOk(wr: nat, rd: nat, h: nat, r: nat, n: nat) {
    && wr == At(h + n) && rd == At(r)
    && h % 2 == 0 && n % 2 == 0 && r % 2 == 1
    && h + n < r < h + n + SIZE
  }

  /** The frames `q` wait from position `h` on.  Of everything that was written, the ring holds the last SIZE
      bytes; so it holds all of these frames as long as they span no more. */
  ghost predicate RingOk(mem: Memory, wr: nat, rd: nat, h: nat, r: nat, q: seq<Frame>) {
    PointersOk(wr, rd, h, r, Span(q)) && Holds(mem, h + Span(q) - SIZE, h, q)
  }

  /** The limit is short of coming round to unread data, so whatever arrives, the ring can hold it. */
  predicate Tight(h: nat, r: nat) { r < h + SIZE }

  lemma TightFits(wr: nat, rd: nat, h: nat, r: nat, n: nat)
    requires PointersOk(wr, rd, h, r, n)
    ensures Tight(h, r) ==> n < SIZE
    ensures n == 0 ==> Tight(h, r)
  {
  }

  /** The limit is odd, the write pointer and the oldest record are even, all inside the ring: so
      they never meet. */
  lemma PointersDistinct(wr: nat, rd: nat, h: nat, r: nat, n: nat)
    requires PointersOk(wr, rd, h, r, n)
    ensures rd % 2 == 1 && wr % 2 == 0 && At(h) % 2 == 0
    ensures RX_START <= rd <= RX_END && RX_START <= wr <= RX_END
  {
    AtParity(h + n);
    AtParity(r);
    AtParity(h);
  }

  /** No address the engine may still write holds a byte that waits to be read. */
  lemma WritableIsFree(wr: nat, rd: nat, h: nat, r: nat, n: nat, p: nat, k: nat)
    requires PointersOk(wr, rd, h, r, n) && Tight(h, r)
    requires h <= p < h + n <= k < r
    ensures At(p) != At(k)
  {
    if At(p) == At(k) { AtInjective(p, k); }
  }

  /** Where the limit is not tight, the engine may write where the oldest waiting byte is. */
  lemma LooseIsExposed(wr: nat, rd: nat, h: nat, r: nat, n: nat)
    requires PointersOk(wr, rd, h, r, n) && !Tight(h, r) && 0 < n <= SIZE
    ensures h + n <= h + SIZE < r && At(h + SIZE) == At(h)
  {
    AtSucc(h);
  }

  /** So a limit keeps the engine away from what waits if and only if it is tight. */
  lemma TightExact(wr: nat, rd: nat, h: nat, r: nat, n: nat)
    requires PointersOk(wr, rd, h, r, n) && 0 < n <= SIZE
    ensures Tight(h, r) <==> forall p, k :: h <= p < h + n <= k < r ==> At(p) != At(k)
  {
    hide At;
    if Tight(h, r) {
      forall p, k | h <= p < h + n <= k < r ensures At(p) != At(k) {
        WritableIsFree(wr, rd, h, r, n, p, k);
      }
    } else {
      LooseIsExposed(wr, rd, h, r, n);
    }
  }

  lemma {:induction false} SpanMore(q: seq<Frame>, n: nat)
    requires n <= |q|
    ensures Span(q[..n]) <= Span(q)
    decreases n
  {
    if n > 0 {
      assert q[..n][1..] == q[1..][..n - 1];
      SpanMore(q[1..], n - 1);
    }
  }

  lemma InsideRecord(h: nat)
    ensures At(h + 6) != At(h)
  {
    AtPlus(h, 6);
  }

  /** What the receive engine does to the memory for a frame it has room for. */
  function Deposit(mem: Memory, wr: nat, f: Frame, st: nat, nd: nat): (r: (Memory, nat))
    requires |f.data| < 65536 && wr < MEM_SIZE && st < MEM_SIZE
    ensures r.1 < MEM_SIZE
  {
    var end := wr + RecLen(f);
    var next := (if end > nd then end - (nd + 1) + st else end) % MEM_SIZE;
    (Store(mem, wr, Record(f, next), st, nd), next)
  }

  /** Storing inside the ring never leaves it, however much is stored. */
  lemma {:induction false} StoreStaysInRing(mem: Memory, a: nat, bytes: seq<Byte>)
    requires RX_START <= a <= RX_END
    ensures forall x :: 0 <= x < MEM_SIZE && !(RX_START <= x <= RX_END) ==>
              Store(mem, a, bytes, RX_START, RX_END)[x] == mem[x]
    decreases |bytes|
  {
    if bytes != [] {
      StoreStaysInRing(mem[a := bytes[0]], Inc(a, RX_START, RX_END), bytes[1..]);
    }
  }

  /** The receive engine never leaves the ring, whatever the limit inside the ring is. */
  lemma DepositStaysInRing(mem: Memory, wr: nat, rd: nat, f: Frame)
    requires RX_START <= wr <= RX_END && RX_START <= rd <= RX_END
    requires |f.data| < 65536 && 6 + |f.data| <= FreeSpace(wr, rd, RX_START, RX_END)
    ensures var (mem', wr') := Deposit(mem, wr, f, RX_START, RX_END);
            && RX_START <= wr' <= RX_END
            && forall x :: 0 <= x < MEM_SIZE && !(RX_START <= x <= RX_END) ==> mem'[x] == mem[x]
  {
    var (mem', wr') := Deposit(mem, wr, f, RX_START, RX_END);
    StoreStaysInRing(mem, wr, Record(f, wr'));
  }

  /** A frame that fits the free space is appended to the waiting frames and destroys none of them,
      unless there are now more of them than the ring can hold. */
  lemma DepositAppends(mem: Memory, wr: nat, rd: nat, h: nat, r: nat, q: seq<Frame>, f: Frame)
    requires RingOk(mem, wr, rd, h, r, q)
    requires 6 + |f.data| <= FreeSpace(wr, rd, RX_START, RX_END)
    ensures |f.data| < 65536
    ensures var (mem', wr') := Deposit(mem, wr, f, RX_START, RX_END);
            && RingOk(mem', wr', rd, h, r, q + [f])
            && (forall a :: 0 <= a < MEM_SIZE && !(RX_START <= a <= RX_END) ==> mem'[a] == mem[a])
  {
    hide Deposit, Record, Holds, FreeSpace, RecordAt;
    var w := h + Span(q);
    RoomForRecord(w, r, f);
    SpanAppend(q, f);
    SpanEven(q + [f]);
    PointersDistinct(wr, rd, h, r, Span(q));
    DepositStaysInRing(mem, wr, rd, f);
    DepositHolds(mem, h, q, f);
  }

  lemma DepositHolds(mem: Memory, h: nat, q: seq<Frame>, f: Frame)
    requires Holds(mem, h + Span(q) - SIZE, h, q) && RecLen(f) <= SIZE
    ensures var (mem', wr') := Deposit(mem, At(h + Span(q)), f, RX_START, RX_END);
            && wr' == At(h + Span(q) + RecLen(f))
            && Holds(mem', h + Span(q) + RecLen(f) - SIZE, h, q + [f])
  {
    hide Deposit, Record, Holds, At, RecordAt;
    var w := h + Span(q);
    var lo := w + RecLen(f) - SIZE;
    var (mem', wr') := Deposit(mem, At(w), f, RX_START, RX_END);
    DepositStores(mem, lo, w, f);
    DepositSpares(mem, if lo < 0 then 0 else lo, w, f);
    HoldsLater(mem, w - SIZE, lo, h, q);
    HoldsFrame(mem, mem', lo, h, q);
    HoldsAppend(mem', lo, h, q, f);
  }

  /** What is more than SIZE bytes back is overwritten: there is now the byte of the new record that comes
      SIZE positions later. */
  lemma OverrunOverwrites(mem: Memory, wr: nat, rd: nat, h: nat, r: nat, q: seq<Frame>, f: Frame, p: nat)
    requires RingOk(mem, wr, rd, h, r, q)
    requires 6 + |f.data| <= FreeSpace(wr, rd, RX_START, RX_END)
    requires h + Span(q) <= p + SIZE < h + Span(q) + 6 + |f.data|
    ensures |f.data| < 65536
    ensures var (mem', wr') := Deposit(mem, wr, f, RX_START, RX_END);
            mem'[At(p)] == Record(f, wr')[p + SIZE - (h + Span(q))]
  {
    hide Deposit, Record, Holds, FreeSpace;
    var w := h + Span(q);
    RoomForRecord(w, r, f);
    DepositStores(mem, w, w, f);
    var (mem', wr') := Deposit(mem, wr, f, RX_START, RX_END);
    var i := p + SIZE - w;
    AtSucc(p);
    assert RecordByte(f, wr', i) == mem'[At(w + i)];
    RecordByteIs(f, wr', i);
  }

  lemma RecordByteIs(f: Frame, next: nat, i: nat)
    requires |f.data| < 65536 && next < MEM_SIZE && i < 6 + |f.data|
    ensures RecordByte(f, next, i) == Record(f, next)[i]
  {
  }

  lemma NextAfter(mem: Memory, w: nat, f: Frame)
    requires RecLen(f) <= SIZE
    ensures Deposit(mem, At(w), f, RX_START, RX_END).1 == At(w + RecLen(f))
  {
    hide Store, Record, At;
    AtPlus(w, RecLen(f));
  }

  lemma DepositStores(mem: Memory, lo: int, w: nat, f: Frame)
    requires RecLen(f) <= SIZE && lo <= w
    ensures var (mem', wr') := Deposit(mem, At(w), f, RX_START, RX_END);
            wr' == At(w + RecLen(f)) && RecordAt(mem', lo, w, f, wr')
  {
    hide Store, Record, At, RecordAt;
    NextAfter(mem, w, f);
    var (mem', wr') := Deposit(mem, At(w), f, RX_START, RX_END);
    StoreInRing(mem, w, Record(f, wr'));
    RecordAtIsStored(mem', lo, w, f, wr');
  }

  lemma DepositSpares(mem: Memory, h: nat, w: nat, f: Frame)
    requires h <= w && w + RecLen(f) <= h + SIZE
    ensures forall i :: h <= i < w ==> Deposit(mem, At(w), f, RX_START, RX_END).0[At(i)] == mem[At(i)]
  {
    hide Store, Record, At;
    var (mem', wr') := Deposit(mem, At(w), f, RX_START, RX_END);
    StoreInRing(mem, w, Record(f, wr'));
    forall i | h <= i < w ensures mem'[At(i)] == mem[At(i)] {
      AtSucc(i);
      assert mem'[At(i + SIZE)] == mem[At(i + SIZE)];
    }
  }

  /** The room between an even write position and an odd limit is even, so a record that fits
      still fits with its padding byte. */
  lemma RoomForRecord(w: nat, r: nat, f: Frame)
    requires w % 2 == 0 && r % 2 == 1 && w < r < w + SIZE
    requires 6 + |f.data| <= FreeSpace(At(w), At(r), RX_START, RX_END)
    ensures w + RecLen(f) < r && RecLen(f) % 2 == 0
  {
    FreeSpaceExact(w, r);
  }

  /** The read limit the driver computes from the next-packet pointer (the step before it, or the
      end of the ring when that is outside). */
  function ReadLimit(next: nat): nat {
    if next - 1 > RX_END || next - 1 < RX_START then RX_END else next - 1
  }

  /** The first position after `w` that has the address just before position `h`. */
  function LimitFrom(h: nat, w: nat): nat
    requires h <= w
  {
    h + SIZE * ((w - h) / SIZE) + SIZE - 1
  }

  /** Taking the oldest frame out: moving the limit to just before the next record gives its room back, and
      keeps the engine away from what still waits as long as that is less than the ring can hold. */
  lemma TakeOldest(mem: Memory, wr: nat, rd: nat, h: nat, r: nat, q: seq<Frame>)
    requires RingOk(mem, wr, rd, h, r, q) && q != []
    ensures RecordAt(mem, h + Span(q) - SIZE, h, q[0], At(h + RecLen(q[0])))
    ensures var h' := h + RecLen(q[0]);
            var r' := LimitFrom(h', h + Span(q));
            && RingOk(mem, wr, ReadLimit(At(h')), h', r', q[1..])
            && (Tight(h', r') <==> Span(q[1..]) < SIZE)
  {
    hide At, ReadLimit, LimitFrom;
    SpanEven(q[1..]);
    TakePointers(wr, rd, h, r, Span(q), RecLen(q[0]));
  }

  lemma {:induction false} AtPeriod(p: nat, m: nat)
    ensures At(p + SIZE * m) == At(p)
    decreases m
  {
    if m > 0 {
      AtPeriod(p, m - 1);
      AtSucc(p + SIZE * (m - 1));
      assert p + SIZE * m == p + SIZE * (m - 1) + SIZE;
    }
  }

  lemma LimitBefore(p: nat)
    ensures ReadLimit(At(p)) == At(p + SIZE - 1)
  {
    hide At;
    AtPlus(p, SIZE - 1);
  }

  lemma LimitFromExact(h: nat, w: nat)
    requires h <= w && h % 2 == 0 && w % 2 == 0
    ensures var r := LimitFrom(h, w);
            w < r < w + SIZE && r % 2 == 1 && At(r) == ReadLimit(At(h)) && (Tight(h, r) <==> w - h < SIZE)
  {
    hide At, ReadLimit;
    var m := (w - h) / SIZE;
    LimitBefore(h);
    AtPeriod(h + SIZE - 1, m);
    assert LimitFrom(h, w) == h + SIZE - 1 + SIZE * m;
  }

  lemma TakePointers(wr: nat, rd: nat, h: nat, r: nat, n: nat, k: nat)
    requires PointersOk(wr, rd, h, r, n) && k <= n && k % 2 == 0
    ensures var r' := LimitFrom(h + k, h + n);
            PointersOk(wr, ReadLimit(At(h + k)), h + k, r', n - k) && (Tight(h + k, r') <==> n - k < SIZE)
  {
    hide At, ReadLimit, LimitFrom;
    LimitFromExact(h + k, h + n);
    assert h + k + (n - k) == h + n;
  }

  /** The position at which the ring ends, counted from `w`. */
  function EndFrom(w: nat): (e: nat)
    ensures e - w == RX_END - At(w)
  {
    w + (RX_END - At(w))
  }

  /** Setting the limit to the end of the ring, as the receive error branch does, damages no waiting
      frame.  It keeps the engine away from them exactly when they do not run past that end. */
  lemma ResetLimitExact(mem: Memory, wr: nat, rd: nat, h: nat, r: nat, q: seq<Frame>)
    requires RingOk(mem, wr, rd, h, r, q) && Span(q) < SIZE
    ensures RingOk(mem, wr, RX_END, h, EndFrom(h + Span(q)), q)
    ensures Tight(h, EndFrom(h + Span(q))) <==> wr >= At(h)
    ensures forall r' :: RingOk(mem, wr, RX_END, h, r', q) && Tight(h, r') ==> wr >= At(h)
    ensures q == [] ==> wr >= At(h)
  {
    EndPointers(h, Span(q));
    forall r' | RingOk(mem, wr, RX_END, h, r', q) && Tight(h, r') ensures wr >= At(h) {
      ResetOnlyIf(wr, h, r', Span(q));
    }
  }

  lemma EndPointers(h: nat, n: nat)
    requires h % 2 == 0 && n % 2 == 0 && n < SIZE
    ensures var e := EndFrom(h + n); At(e) == RX_END && e % 2 == 1 && h + n < e < h + n + SIZE
    ensures EndFrom(h + n) < h + SIZE <==> At(h + n) >= At(h)
  {
    var w := h + n;
    AtParity(w);
    AtPlus(w, RX_END - At(w));
    AtPlus(h, n);
  }

  lemma ResetOnlyIf(wr: nat, h: nat, r: nat, n: nat)
    requires PointersOk(wr, RX_END, h, r, n) && Tight(h, r)
    ensures wr >= At(h)
  {
    AtPlus(h, n);
    AtPlus(h + n, r - (h + n));
  }
}
