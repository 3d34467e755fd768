/** Socket buffers: a byte array with a movable window, and in-place moves inside it. */
module SkbBuffer {

  type Byte = x: int | 0 <= x < 256

  lemma SubSlice<T>(s: seq<T>, a: nat, b: nat, i: nat, j: nat)
    requires a <= b <= |s| && i <= j <= b - a
    ensures s[a..b][i..j] == s[a + i..a + j]
  {
    var x, y := s[a..b][i..j], s[a + i..a + j];
    forall k | 0 <= k < j - i ensures x[k] == y[k] {
      assert x[k] == s[a..b][i + k];
    }
  }

  /** Copy towards lower addresses, first byte first. */
  method CopyUp(a: array<Byte>, dst: nat, src: nat, n: nat)
    requires dst <= src && src + n <= a.Length
    modifies a
    ensures forall i {:trigger a[i]} :: 0 <= i < a.Length ==> a[i] == old(if dst <= i < dst + n then a[i + (src - dst)] else a[i])
  {
    var k := 0;
    while k < n
      invariant 0 <= k <= n
      invariant forall i {:trigger a[i]} :: 0 <= i < a.Length ==> a[i] == old(if dst <= i < dst + k then a[i + (src - dst)] else a[i])
    {
      a[dst + k] := a[src + k];
      k := k + 1;
    }
  }

  /** Copy towards higher addresses, last byte first. */
  method CopyDown(a: array<Byte>, dst: nat, src: nat, n: nat)
    requires src <= dst && dst + n <= a.Length
    modifies a
    ensures forall i {:trigger a[i]} :: 0 <= i < a.Length ==> a[i] == old(if dst <= i < dst + n then a[i + (src - dst)] else a[i])
  {
    var k := n;
    while k > 0
      invariant 0 <= k <= n
      invariant forall i {:trigger a[i]} :: 0 <= i < a.Length ==> a[i] == old(if dst + k <= i < dst + n then a[i + (src - dst)] else a[i])
    {
      k := k - 1;
      a[dst + k] := a[src + k];
    }
  }

  /** `n` bytes moved from `src` to `dst`. */
  ghost function MovedBytes(b: seq<Byte>, dst: nat, src: nat, n: nat): seq<Byte>
    requires dst + n <= |b| && src + n <= |b|
  {
    b[..dst] + b[src..src + n] + b[dst + n..]
  }

  lemma MovedIs(b: seq<Byte>, m: seq<Byte>, dst: nat, src: nat, n: nat)
    requires dst + n <= |b| && src + n <= |b| && |m| == |b|
    requires forall i {:trigger m[i]} :: 0 <= i < |b| ==> m[i] == if dst <= i < dst + n then b[i + (src - dst)] else b[i]
    ensures m == MovedBytes(b, dst, src, n)
  {
  }

  /** memmove. */
  method Copy(a: array<Byte>, dst: nat, src: nat, n: nat)
    requires dst + n <= a.Length && src + n <= a.Length
    modifies a
    ensures a[..] == MovedBytes(old(a[..]), dst, src, n)
  {
    ghost var b := a[..];
    if dst <= src {
      CopyUp(a, dst, src, n);
    } else {
      CopyDown(a, dst, src, n);
    }
    MovedIs(b, a[..], dst, src, n);
    hide MovedBytes;
  }

  /** Bytes written over others at position `at`. */
  ghost function Patch(b: seq<Byte>, at: nat, x: seq<Byte>): seq<Byte>
    requires at + |x| <= |b|
  {
    b[..at] + x + b[at + |x|..]
  }

  /** memcpy of foreign bytes into a buffer. */
  method PutBytes(a: array<Byte>, at: nat, bytes: seq<Byte>)
    requires at + |bytes| <= a.Length
    modifies a
    ensures a[..] == Patch(old(a[..]), at, bytes)
  {
    ghost var b := a[..];
    var k := 0;
    while k < |bytes|
      invariant 0 <= k <= |bytes|
      invariant forall i {:trigger a[i]} :: 0 <= i < a.Length ==> a[i] == if at <= i < at + k then bytes[i - at] else b[i]
    {
      a[at + k] := bytes[k];
      k := k + 1;
    }
    ghost var w := Patch(b, at, bytes);
    assert forall i :: 0 <= i < a.Length ==> a[i] == w[i];
  }

  ghost function Window(b: seq<Byte>, off: nat, len: nat): (f: seq<Byte>)
    requires off + len <= |b|
    ensures |f| == len
  {
    b[off..off + len]
  }

  class Skb {
    const buf: array<Byte>
    var off: nat
    var len: nat

    ghost predicate Valid()
      reads this
    {
      off + len <= buf.Length
    }

    function Tailroom(): int
      reads this
    {
      buf.Length - off - len
    }

    /** The bytes between the data and the tail pointer. */
    ghost function Frame(): (f: seq<Byte>)
      requires Valid()
      reads this, buf
      ensures |f| == len
    {
      Window(buf[..], off, len)
    }

    constructor (buf: array<Byte>, off: nat, len: nat)
      requires off + len <= buf.Length
      ensures this.buf == buf && this.off == off && this.len == len
    {
      this.buf, this.off, this.len := buf, off, len;
    }

    function At(i: nat): Byte
      requires Valid() && i < len
      reads this, buf
      ensures At(i) == Frame()[i]
    {
      buf[off + i]
    }

    /** memmove inside the window, correct for overlapping regions. */
    method MemMove(dst: nat, src: nat, n: nat)
      requires Valid() && dst + n <= len && src + n <= len
      modifies buf
      ensures Frame() == MovedBytes(old(Frame()), dst, src, n)
      ensures buf[..off] == old(buf[..off])
    {
      hide Window, MovedBytes;
      ghost var b := buf[..];
      Copy(buf, off + dst, off + src, n);
      Moved(b, off, len, dst, src, n);
      assert buf[..off] == buf[..][..off] && b[..off] == old(buf[..off]);
    }

    /** A move inside the window is the same move seen from the window. */
    static lemma Moved(b: seq<Byte>, off: nat, len: nat, dst: nat, src: nat, n: nat)
      requires off + len <= |b| && dst + n <= len && src + n <= len
      ensures |MovedBytes(b, off + dst, off + src, n)| == |b|
      ensures Window(MovedBytes(b, off + dst, off + src, n), off, len) == MovedBytes(Window(b, off, len), dst, src, n)
      ensures MovedBytes(b, off + dst, off + src, n)[..off] == b[..off]
    {
      var m := MovedBytes(b, off + dst, off + src, n);
      var x, y := Window(m, off, len), MovedBytes(Window(b, off, len), dst, src, n);
      var f := Window(b, off, len);
      forall i | 0 <= i < len ensures x[i] == y[i] {
        assert x[i] == m[off + i] && f[i] == b[off + i];
        if dst <= i < dst + n {
          assert y[i] == f[src + (i - dst)] == b[off + (src + (i - dst))];
        } else {
          assert y[i] == f[i];
        }
      }
    }

    /** memcpy of foreign bytes into the window. */
    method Write(at: nat, bytes: seq<Byte>)
      requires Valid() && at + |bytes| <= len
      modifies buf
      ensures Frame() == old(Frame()[..at]) + bytes + old(Frame()[at + |bytes|..])
      ensures buf[..off] == old(buf[..off])
    {
      hide Window, Patch;
      ghost var b := buf[..];
      PutBytes(buf, off + at, bytes);
      Written(b, buf[..], off, len, at, bytes);
      assert buf[..off] == buf[..][..off] && b[..off] == old(buf[..off]);
    }

    /** Bytes written inside the window, seen from the window. */
    static lemma Written(b: seq<Byte>, c: seq<Byte>, off: nat, len: nat, at: nat, bytes: seq<Byte>)
      requires off + len <= |b| && at + |bytes| <= len && c == Patch(b, off + at, bytes)
      ensures |c| == |b| && c[..off] == b[..off]
      ensures Window(c, off, len) == Window(b, off, len)[..at] + bytes + Window(b, off, len)[at + |bytes|..]
    {
      var x, f := Window(c, off, len), Window(b, off, len);
      var y := f[..at] + bytes + f[at + |bytes|..];
      forall i | 0 <= i < len ensures x[i] == y[i] {
        assert x[i] == c[off + i] && f[i] == b[off + i];
      }
    }

    /** skb_put: claim tail room. */
    method Put(n: nat)
      requires Valid() && n <= Tailroom()
      modifies this`len
      ensures Valid() && len == old(len) + n && Frame()[..old(len)] == old(Frame())
    {
      len := len + n;
    }

    /** skb_pull_and_merge: take `n` bytes at `src` out of the frame. */
    method PullAndMerge(src: nat, n: nat) returns (ret: int)
      requires Valid()
      modifies this`len, buf
      ensures Valid() && buf[..off] == old(buf[..off])
      ensures if src + n <= old(len) then ret == 0 && Frame() == old(Frame()[..src] + Frame()[src + n..])
              else ret == -1 && Frame() == old(Frame())
    {
      if src + n > len || len < n {
        return -1;
      }
      hide Window, MovedBytes;
      ghost var f := Frame();
      var tail := len - (src + n);
      if tail > 0 {
        MemMove(src, src + n, tail);
      }
      ghost var b := buf[..];
      Shortened(b, f, off, len, src, n);
      len := len - n;
      return 0;
    }

    static lemma MovedFront(f: seq<Byte>, src: nat, n: nat)
      requires src + n <= |f|
      ensures MovedBytes(f, src, src + n, |f| - (src + n))[0..|f| - n] == f[..src] + f[src + n..]
    {
      var m, w := MovedBytes(f, src, src + n, |f| - (src + n)), f[..src] + f[src + n..];
      var x := m[0..|f| - n];
      forall i | 0 <= i < |f| - n ensures x[i] == w[i] {
        assert x[i] == m[i];
      }
    }

    /** After the tail has moved up, the window without its last `n` bytes is the frame without the gap. */
    static lemma Shortened(b: seq<Byte>, f: seq<Byte>, off: nat, len: nat, src: nat, n: nat)
      requires off + len <= |b| && |f| == len && src + n <= len
      requires src + n < len ==> Window(b, off, len) == MovedBytes(f, src, src + n, len - (src + n))
      requires src + n == len ==> Window(b, off, len) == f
      ensures Window(b, off, len - n) == f[..src] + f[src + n..]
    {
      SubSlice(b, off, off + len, 0, len - n);
      assert Window(b, off, len - n) == Window(b, off, len)[0..len - n];
      if src + n < len {
        MovedFront(f, src, n);
      }
    }
  }
}
