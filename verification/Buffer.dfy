/** The growing, compacting byte buffer of include/ws/Buffer.h. */
module BufferModule {
  import opened Bytes

  const INITIAL_SIZE: nat := 1024
  const EXPAND_THRESHOLD: nat := 3
  const EXPAND_SIZE: nat := 8192

  function Max(a: int, b: int): int {
    if a < b then b else a
  }

  /**
    The bytes between `readIndex` and `writeIndex` are the queue that callers see; the bytes
    before `readIndex` are dead and those from `writeIndex` on are free. `initial` and `peak`
    only record the capacity the buffer was last given outright and the largest
    readable-plus-requested length seen since, so that `Valid` can bound the memory held.
    */
  class Buffer {
    var buf: seq<byte>
    var readIndex: nat
    var writeIndex: nat
    var lastExpand: nat
    ghost var initial: nat
    ghost var peak: nat

    ghost predicate Valid()
      reads this
    {
      && readIndex <= writeIndex <= |buf|
      && lastExpand <= EXPAND_THRESHOLD
      && |buf| <= Max(initial, 2 * peak + EXPAND_SIZE)
    }

    /** The queue of bytes not yet read: what `peek()` points at, up to the write index. */
    function View(): seq<byte>
      requires Valid()
      reads this
    {
      buf[readIndex..writeIndex]
    }

    constructor (capacity: nat)
      ensures Valid() && View() == []
      ensures |buf| == initial == capacity && peak == 0 && lastExpand == 0
      ensures readIndex == writeIndex == 0
    {
      buf := seq(capacity, _ => 0);
      readIndex, writeIndex, lastExpand := 0, 0, 0;
      initial, peak := capacity, 0;
    }

    function Remaining(): nat
      requires Valid()
      reads this
    {
      |buf| - writeIndex
    }

    function Available(): nat
      requires Valid()
      reads this
    {
      |buf| - writeIndex + readIndex
    }

    function ReadableBytes(): (n: nat)
      requires Valid()
      reads this
      ensures n == |View()|
    {
      writeIndex - readIndex
    }

    /** `read(size_t)` and `retrieve`: drop a prefix without moving anything. */
    method Retrieve(len: nat)
      requires Valid() && len <= |View()|
      modifies this`readIndex
      ensures Valid() && View() == old(View())[len..]
      ensures readIndex == old(readIndex) + len
    {
      readIndex := readIndex + len;
    }

    /** `read(char*, size_t)`: copy a prefix out and drop it. */
    method Read(len: nat) returns (dst: seq<byte>)
      requires Valid() && len <= |View()|
      modifies this`readIndex
      ensures Valid() && dst == old(View())[..len] && View() == old(View())[len..]
      ensures readIndex == old(readIndex) + len
    {
      dst := buf[readIndex..readIndex + len];
      Retrieve(len);
    }

    /** Take back the last `len` bytes read; sound while nothing was written since. */
    method Unread(len: nat)
      requires Valid() && len <= readIndex
      modifies this`readIndex
      ensures Valid() && readIndex == old(readIndex) - len
      ensures View() == buf[readIndex..old(readIndex)] + old(View())
    {
      readIndex := readIndex - len;
    }

    method ReadString() returns (s: seq<byte>)
      requires Valid()
      modifies this`readIndex
      ensures Valid() && s == old(View()) && View() == []
    {
      s := View();
      Retrieve(ReadableBytes());
    }

    /** Move the readable bytes to the front; the bytes behind them keep their old values. */
    method Compact()
      requires Valid()
      modifies this`buf, this`readIndex, this`writeIndex
      ensures Valid() && View() == old(View())
      ensures |buf| == old(|buf|) && readIndex == 0
    {
      buf := buf[readIndex..writeIndex] + buf[writeIndex - readIndex..];
      writeIndex := writeIndex - readIndex;
      readIndex := 0;
    }

    method Grow(extra: nat)
      requires readIndex <= writeIndex <= |buf|
      modifies this`buf
      ensures |buf| == old(|buf|) + extra && buf[readIndex..writeIndex] == old(buf[readIndex..writeIndex])
    {
      SlicePrefix(buf, seq(extra, _ => 0), readIndex, writeIndex);
      buf := buf + seq(extra, _ => 0);
    }

    /**
      Make room for `len` bytes behind the readable ones. The result `r` is the room the caller
      may fill from `writeStart()` on: it is at least `len` and never more than there is.
      The buffer grows only when even compaction would not do, which is why the dead prefix is
      then shorter than the request and the capacity stays within twice the peak need.
      */
    method EnsureSpace(len: nat) returns (r: nat)
      requires Valid()
      modifies this
      ensures Valid() && View() == old(View())
      ensures len <= r <= Remaining()
      ensures initial == old(initial) && peak == Max(old(peak), |View()| + len)
      ensures |buf| >= old(|buf|)
      ensures |buf| > old(|buf|) ==> old(Available()) < len
    {
      peak := Max(peak, writeIndex - readIndex + len);
      if Remaining() >= len {
        return Remaining();
      }
      if Available() >= len {
        Compact();
        return len;
      }
      var left := len - Remaining();
      lastExpand := lastExpand + 1;
      if lastExpand > EXPAND_THRESHOLD {
        Grow(left + EXPAND_SIZE);
        lastExpand := 0;
        return Remaining();
      }
      Grow(left);
      return len;
    }

    /** Copy `bs` to `writeStart()` and beyond, leaving every index alone. */
    method PlaceAtWriteStart(bs: seq<byte>)
      requires Valid() && |bs| <= Remaining()
      modifies this`buf
      ensures Valid() && |buf| == old(|buf|) && View() == old(View())
      ensures buf[writeIndex..writeIndex + |bs|] == bs
    {
      buf := buf[..writeIndex] + bs + buf[writeIndex + |bs|..];
    }

    /** Append `bs`, growing or compacting as needed. */
    method Write(bs: seq<byte>)
      requires Valid()
      modifies this
      ensures Valid() && View() == old(View()) + bs
      ensures initial == old(initial) && peak == Max(old(peak), |View()|)
    {
      var _ := EnsureSpace(|bs|);
      PlaceAtWriteStart(bs);
      writeIndex := writeIndex + |bs|;
    }

    /** Move the first `len` readable bytes of `src` to the end of this buffer. */
    method WriteFrom(src: Buffer, len: nat)
      requires Valid() && src != this && src.Valid() && len <= |src.View()|
      modifies this, src`readIndex
      ensures Valid() && View() == old(View()) + old(src.View())[..len]
      ensures src.Valid() && src.View() == old(src.View())[len..]
      ensures initial == old(initial) && peak == Max(old(peak), |View()|)
      ensures src.initial == old(src.initial) && src.peak == old(src.peak) && src.buf == old(src.buf)
    {
      Write(src.View()[..len]);
      src.Retrieve(len);
    }

    /** Drop the last `len` readable bytes, or all of them when there are fewer. */
    method Unwrite(len: nat)
      requires Valid()
      modifies this
      ensures Valid()
      ensures View() == if |old(View())| < len then [] else old(View())[..|old(View())| - len]
      ensures buf == old(buf) && initial == old(initial) && peak == old(peak)
    {
      if ReadableBytes() < len {
        var readable: int := ReadableBytes();
        UpdateWriteIndex(-readable);
      } else {
        UpdateWriteIndex(-(len as int));
      }
    }

    /**
      A negative `delta` truncates, never below the read index. A nonnegative one makes bytes
      behind the write index readable: they appear unmoved when they fit behind the write index,
      as every length returned by `EnsureSpace` does.
      */
    method UpdateWriteIndex(delta: int)
      requires Valid() && delta <= Available()
      modifies this
      ensures Valid() && |buf| == old(|buf|)
      ensures delta < 0 ==> View() == old(View())[..Max(0, |old(View())| + delta)] && buf == old(buf)
      ensures 0 <= delta ==> |View()| == |old(View())| + delta && View()[..|old(View())|] == old(View())
      ensures 0 <= delta <= old(Remaining()) ==> View() == old(View()) + old(buf[writeIndex..writeIndex + delta])
      ensures delta <= old(Remaining()) ==> readIndex == old(readIndex) && buf == old(buf)
      ensures initial == old(initial) && peak == old(peak)
    {
      if delta < 0 {
        SliceOfSlice(buf, readIndex, writeIndex, Max(readIndex, writeIndex + delta));
        writeIndex := Max(readIndex, writeIndex + delta);
        return;
      }
      ghost var v := View();
      if Remaining() < delta {
        Compact();
      }
      writeIndex := writeIndex + delta;
      assert View()[..|v|] == v;
    }

    /** Overwrite one readable byte in place. */
    method Poke(i: nat, b: byte)
      requires Valid() && i < |View()|
      modifies this`buf
      ensures Valid() && View() == old(View())[i := b]
    {
      buf := buf[readIndex + i := b];
    }

    method Clear()
      requires Valid()
      modifies this`readIndex, this`writeIndex
      ensures Valid() && View() == []
    {
      writeIndex, readIndex := 0, 0;
    }

    /** Keep the first `len` readable bytes and give the buffer exactly that capacity. */
    method Shrink(len: nat)
      requires Valid()
      modifies this
      ensures Valid() && |buf| == len && initial == len && peak == 0
      ensures View() == if |old(View())| > len then old(View())[..len] else old(View())
    {
      ghost var v := View();
      if readIndex > 0 {
        Compact();
      }
      assert View() == v && readIndex == 0;
      if ReadableBytes() > len {
        writeIndex := len;
      }
      buf := if len <= |buf| then buf[..len] else buf + seq(len - |buf|, _ => 0);
      initial, peak := len, 0;
    }

    method ShrinkToFit()
      requires Valid()
      modifies this
      ensures Valid() && View() == old(View()) && |buf| == |View()| && initial == |View()| && peak == 0
    {
      Shrink(ReadableBytes());
    }

    method PutByte(b: byte)
      requires Valid()
      modifies this
      ensures Valid() && View() == old(View()) + [b]
      ensures initial == old(initial) && peak == Max(old(peak), |View()|)
    {
      Write([b]);
    }

    method PutUInt16(word: nat)
      requires Valid() && word < 0x1_0000
      modifies this
      ensures Valid() && View() == old(View()) + ToBigEndian(word, 2)
      ensures initial == old(initial) && peak == Max(old(peak), |View()|)
    {
      Write(ToBigEndian(word, 2));
    }

    method PutUInt32(v: nat)
      requires Valid() && v < 0x1_0000_0000
      modifies this
      ensures Valid() && View() == old(View()) + ToBigEndian(v, 4)
      ensures initial == old(initial) && peak == Max(old(peak), |View()|)
    {
      Write(ToBigEndian(v, 4));
    }

    /** The 36-bit mask of the low half is harmless: the cast keeps 32 bits of it. */
    method PutUInt64(v: nat)
      requires Valid() && v < 0x1_0000_0000_0000_0000
      modifies this
      ensures Valid() && View() == old(View()) + ToBigEndian(v, 8)
      ensures initial == old(initial) && peak == Max(old(peak), |View()|)
    {
      var high := v / 0x1_0000_0000;
      var low := (v % 0x10_0000_0000) % 0x1_0000_0000;
      hide ToBigEndian;
      HalvesBehind(View(), v);
      PutUInt32(high);
      PutUInt32(low);
    }

    /** `readTypedNumber<T>` for a T of `size` bytes. */
    method ReadTypedNumber(size: nat) returns (v: nat)
      requires Valid() && size <= |View()| && (size == 1 || size == 2 || size == 4 || size == 8)
      modifies this`readIndex
      ensures Valid() && v == FromBigEndian(old(View())[..size]) && View() == old(View())[size..]
      ensures size == 1 ==> v == old(View())[0]
      ensures readIndex == old(readIndex) + size
    {
      if size == 8 {
        var high := FromBigEndian(View()[..4]);
        var low := FromBigEndian(View()[4..8]);
        v := high * 0x1_0000_0000 + low;
        HalvesToUInt64(View()[..8]);
        assert View()[..8][..4] == View()[..4] && View()[..8][4..] == View()[4..8];
      } else {
        v := FromBigEndian(View()[..size]);
        if size == 1 {
          SingleByte(View()[0]);
        }
      }
      Retrieve(size);
    }
  }

  lemma HalvesOfUInt64(v: nat)
    ensures ToBigEndian(v, 8) == ToBigEndian(v / 0x1_0000_0000, 4) + ToBigEndian((v % 0x10_0000_0000) % 0x1_0000_0000, 4)
  {
    SplitBigEndian(v, 4, 4);
    DropFour(v);
    LowHalf(v);
    DropHighBytes(v);
  }

  lemma HalvesBehind(before: seq<byte>, v: nat)
    ensures before + ToBigEndian(v / 0x1_0000_0000, 4) + ToBigEndian((v % 0x10_0000_0000) % 0x1_0000_0000, 4)
      == before + ToBigEndian(v, 8)
  {
    hide ToBigEndian;
    HalvesOfUInt64(v);
  }

  lemma FourBytes()
    ensures Pow256(4) == 0x1_0000_0000
  {
    assert Pow256(2) == 65536;
  }

  lemma LowHalf(v: nat)
    ensures (v % 0x10_0000_0000) % 0x1_0000_0000 == v % 0x1_0000_0000
  {
    var q := v / 0x10_0000_0000;
    assert v == (16 * q) * 0x1_0000_0000 + v % 0x10_0000_0000;
  }

  lemma DropHighBytes(v: nat)
    ensures ToBigEndian(v, 4) == ToBigEndian(v % 0x1_0000_0000, 4)
  {
    FourBytes();
    var low, high := v % 0x1_0000_0000, v / 0x1_0000_0000;
    LowBytesOnly(low, high, 4);
    assert v == low + high * Pow256(4);
  }

  function DropBytes(v: nat, k: nat): nat {
    if k == 0 then v else DropBytes(v / 256, k - 1)
  }

  lemma {:induction false} SplitBigEndian(v: nat, n: nat, k: nat)
    ensures ToBigEndian(v, n + k) == ToBigEndian(DropBytes(v, k), n) + ToBigEndian(v, k)
  {
    if k == 0 {
      assert ToBigEndian(v, n) + [] == ToBigEndian(v, n);
    } else {
      SplitBigEndian(v / 256, n, k - 1);
    }
  }

  lemma DropFour(v: nat)
    ensures DropBytes(v, 4) == v / 0x1_0000_0000
  {
    assert DropBytes(v, 4) == DropBytes(v / 256 / 256, 2);
    var w := v / 256 / 256;
    assert DropBytes(w / 256, 1) == w / 256 / 256;
  }

  /** Only the low `n` bytes of a number are written. */
  lemma {:induction false} LowBytesOnly(w: nat, k: nat, n: nat)
    ensures ToBigEndian(w + k * Pow256(n), n) == ToBigEndian(w, n)
  {
    if n > 0 {
      MulRearrange(k, Pow256(n - 1));
      assert (w + k * Pow256(n)) % 256 == w % 256;
      assert (w + k * Pow256(n)) / 256 == w / 256 + k * Pow256(n - 1);
      LowBytesOnly(w / 256, k, n - 1);
    }
  }

  lemma HalvesToUInt64(bs: seq<byte>)
    requires |bs| == 8
    ensures FromBigEndian(bs) == FromBigEndian(bs[..4]) * 0x1_0000_0000 + FromBigEndian(bs[4..])
  {
    JoinBigEndian(bs[..4], bs[4..]);
    assert bs == bs[..4] + bs[4..];
    assert Pow256(2) == 65536 && Pow256(4) == 0x1_0000_0000;
  }

  lemma {:induction false} JoinBigEndian(a: seq<byte>, b: seq<byte>)
    ensures FromBigEndian(a + b) == FromBigEndian(a) * Pow256(|b|) + FromBigEndian(b)
  {
    if b == [] {
      assert a + b == a;
    } else {
      var b' := b[..|b| - 1];
      assert (a + b)[..|a + b| - 1] == a + b';
      JoinBigEndian(a, b');
      MulRearrange(FromBigEndian(a), Pow256(|b'|));
    }
  }

  lemma MulRearrange(x: nat, y: nat)
    ensures x * y * 256 == x * (256 * y)
  {}
}
