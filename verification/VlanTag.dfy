/**
  nat25_handle_frame: a unicast frame is translated in place; an 802.1Q tag is taken out before
  and put back after, both by word-wise moves of the address fields inside the same buffer.
*/
module VlanTag {
  import opened SkbBuffer

  const TPID_HI: Byte := 0x81
  const TPID_LO: Byte := 0x00

  /** What the address translation makes of an untagged frame, and its verdict. */
  datatype Translated = Translated(frame: seq<Byte>, ret: int)

  type Translation = seq<Byte> -> Translated

  /** Translation keeps the two address fields in place and may only shorten the frame. */
  ghost predicate InPlace(t: Translation) {
    forall f :: |f| >= 12 ==> 12 <= |t(f).frame| <= |f|
  }

  predicate Tagged(f: seq<Byte>) {
    |f| >= 16 && f[12] == TPID_HI && f[13] == TPID_LO
  }

  predicate Unicast(f: seq<Byte>) {
    |f| > 0 && f[0] % 2 == 0
  }

  function RemoveTag(f: seq<Byte>): seq<Byte>
    requires |f| >= 16
  {
    f[..12] + f[16..]
  }

  function InsertTag(f: seq<Byte>, tag: seq<Byte>): seq<Byte>
    requires |f| >= 12
  {
    f[..12] + tag + f[12..]
  }

  /** The intended effect: remove the four tag bytes, translate, put the same bytes back. */
  function Handled(f: seq<Byte>, t: Translation): Translated {
    if !Unicast(f) then Translated(f, 0)
    else if Tagged(f) && |t(RemoveTag(f)).frame| >= 12 then
      var r := t(RemoveTag(f));
      Translated(InsertTag(r.frame, f[12..16]), if r.ret == -1 then -1 else 0)
    else Translated(t(f).frame, if t(f).ret == -1 then -1 else 0)
  }

  /** Words `dst` and `dst + 1` of the window take the value of words `src` and `src + 1`. */
  method CopyWord(skb: Skb, dst: nat, src: nat)
    requires skb.Valid() && dst + 2 <= skb.len && src + 2 <= skb.len && (dst + 2 <= src || src + 2 <= dst)
    modifies skb.buf
    ensures skb.Frame() == old(skb.Frame())[dst := old(skb.Frame())[src]][dst + 1 := old(skb.Frame())[src + 1]]
    ensures skb.buf[..skb.off] == old(skb.buf[..skb.off])
  {
    ghost var f := skb.Frame();
    var a, b := skb.At(src), skb.At(src + 1);
    skb.buf[skb.off + dst] := a;
    skb.buf[skb.off + dst + 1] := b;
    ghost var g := f[dst := f[src]][dst + 1 := f[src + 1]];
    assert forall i :: 0 <= i < skb.len ==> skb.Frame()[i] == skb.buf[skb.off + i] == g[i];
  }

  /** Move the two address fields over the tag and pull the frame: the tag is gone. */
  method Strip(skb: Skb)
    requires skb.Valid() && skb.len >= 16
    modifies skb`off, skb`len, skb.buf
    ensures skb.Valid() && skb.off == old(skb.off) + 4
    ensures skb.Frame() == RemoveTag(old(skb.Frame()))
  {
    ghost var f := skb.Frame();
    var i := 0;
    while i < 6
      modifies skb.buf
      invariant 0 <= i <= 6
      invariant forall j {:trigger skb.Frame()[j]} :: 0 <= j < skb.len ==> skb.Frame()[j] == if 16 - 2 * i <= j < 16 then f[j - 4] else f[j]
    {
      CopyWord(skb, 14 - 2 * i, 10 - 2 * i);
      i := i + 1;
    }
    ghost var g := skb.Frame();
    skb.off, skb.len := skb.off + 4, skb.len - 4;
    forall j | 0 <= j < skb.len ensures skb.Frame()[j] == RemoveTag(f)[j] {
      assert skb.Frame()[j] == skb.buf[skb.off + j] == g[j + 4];
    }
  }

  /** Push the frame, move the address fields back down and write the tag behind them. */
  method Restore(skb: Skb, hi: Byte, lo: Byte)
    requires skb.Valid() && skb.len >= 12 && skb.off >= 4
    modifies skb`off, skb`len, skb.buf
    ensures skb.Valid() && skb.off == old(skb.off) - 4
    ensures skb.Frame() == InsertTag(old(skb.Frame()), [TPID_HI, TPID_LO, hi, lo])
  {
    ghost var f := skb.Frame();
    skb.off, skb.len := skb.off - 4, skb.len + 4;
    forall j | 4 <= j < skb.len ensures skb.Frame()[j] == f[j - 4] {
      assert skb.Frame()[j] == skb.buf[skb.off + j];
    }
    var i := 0;
    while i < 6
      modifies skb.buf
      invariant 0 <= i <= 6
      invariant forall j {:trigger skb.Frame()[j]} :: 0 <= j < skb.len ==>
                  if j < 2 * i then skb.Frame()[j] == f[j] else j >= 4 ==> skb.Frame()[j] == f[j - 4]
    {
      CopyWord(skb, 2 * i, 4 + 2 * i);
      i := i + 1;
    }
    ghost var g := skb.Frame();
    skb.Write(12, [TPID_HI, TPID_LO, hi, lo]);
    TagWritten(f, g, skb.Frame(), [TPID_HI, TPID_LO, hi, lo]);
  }

  /** The addresses are in front, the rest is four bytes further on, and the tag fills the space between. */
  lemma TagWritten(f: seq<Byte>, g: seq<Byte>, h: seq<Byte>, tag: seq<Byte>)
    requires |f| >= 12 && |tag| == 4 && |g| == |f| + 4 && h == g[..12] + tag + g[16..]
    requires forall j {:trigger g[j]} :: 0 <= j < |g| ==> if j < 12 then g[j] == f[j] else g[j] == f[j - 4]
    ensures h == InsertTag(f, tag)
  {
    assert g[..12] == f[..12];
    assert g[16..] == f[12..];
  }

  /** The translation, carried out inside the window. */
  method Translate(skb: Skb, t: Translation, frame: seq<Byte>) returns (ret: int)
    requires skb.Valid() && frame == skb.Frame() && |t(frame).frame| <= |frame|
    modifies skb`len, skb.buf
    ensures skb.Valid() && skb.Frame() == t(frame).frame && ret == t(frame).ret
  {
    var r := t(frame);
    skb.Write(0, r.frame);
    ghost var g := skb.Frame();
    skb.len := |r.frame|;
    assert forall j :: 0 <= j < skb.len ==> skb.Frame()[j] == skb.buf[skb.off + j] == g[j];
    ret := r.ret;
  }

  /** nat25_handle_frame. */
  method HandleFrame(skb: Skb, t: Translation) returns (ret: int)
    requires skb.Valid() && skb.len >= 14 && InPlace(t)
    requires skb.At(12) == TPID_HI && skb.At(13) == TPID_LO ==> skb.len >= 16
    modifies skb, skb.buf
    ensures skb.Valid() && skb.off == old(skb.off)
    ensures Translated(skb.Frame(), ret) == Handled(old(skb.Frame()), t)
  {
    ghost var f := skb.Frame();
    ret := 0;
    if skb.At(0) % 2 == 0 {
      if skb.At(12) == TPID_HI && skb.At(13) == TPID_LO {
        var hi, lo := skb.At(14), skb.At(15);
        Strip(skb);
        var frame := skb.buf[skb.off..skb.off + skb.len];
        var r := Translate(skb, t, frame);
        Restore(skb, hi, lo);
        assert f[12..16] == [TPID_HI, TPID_LO, hi, lo];
        ret := if r == -1 then -1 else 0;
      } else {
        var frame := skb.buf[skb.off..skb.off + skb.len];
        var r := Translate(skb, t, frame);
        ret := if r == -1 then -1 else 0;
      }
    }
  }

  /** Putting a tag in and taking it out again are inverse to each other. */
  lemma TagRoundTrip(f: seq<Byte>, tag: seq<Byte>)
    requires |f| >= 12 && |tag| == 4
    ensures RemoveTag(InsertTag(f, tag)) == f
    ensures Tagged(f) ==> InsertTag(RemoveTag(f), f[12..16]) == f
  {
  }
}
