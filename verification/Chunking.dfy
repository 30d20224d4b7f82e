/** How both host tools cut a firmware image into DFU_DOWNLOAD payloads. */
module Chunking {
  import opened Protocol

  /** The payloads sent for `fw`, in order, at most `c` bytes each. */
  function Chunks(fw: seq<Byte>, c: nat): seq<seq<Byte>>
    requires c > 0
    decreases |fw|
  {
    if fw == [] then []
    else
      var k := Min(|fw|, c);
      [fw[..k]] + Chunks(fw[k..], c)
  }

  function Flatten(parts: seq<seq<Byte>>): seq<Byte> {
    if parts == [] then [] else parts[0] + Flatten(parts[1..])
  }

  /** Every part has 1..c bytes and all but the last are full. */
  ghost predicate WellCut(parts: seq<seq<Byte>>, c: nat) {
    && (forall i :: 0 <= i < |parts| ==> 1 <= |parts[i]| <= c)
    && (forall i :: 0 <= i < |parts| - 1 ==> |parts[i]| == c)
  }

  lemma {:induction false} FlattenAppend(a: seq<seq<Byte>>, b: seq<seq<Byte>>)
    ensures Flatten(a + b) == Flatten(a) + Flatten(b)
  {
    if a == [] {
      assert a + b == b;
    } else {
      FlattenAppend(a[1..], b);
      assert (a + b)[0] == a[0] && (a + b)[1..] == a[1..] + b;
      assert a[0] + (Flatten(a[1..]) + Flatten(b)) == a[0] + Flatten(a[1..]) + Flatten(b);
    }
  }

  /** Round trip: the payloads concatenate to the firmware, are well cut, and number ceil(n / c). */
  lemma {:induction false} ChunksRoundTrip(fw: seq<Byte>, c: nat)
    requires c > 0
    ensures Flatten(Chunks(fw, c)) == fw
    ensures WellCut(Chunks(fw, c), c)
    ensures |Chunks(fw, c)| == CeilDiv(|fw|, c)
    decreases |fw|
  {
    if fw == [] {
      DivUnique(c - 1, c, 0, c - 1);
    } else {
      var k := Min(|fw|, c);
      ChunksRoundTrip(fw[k..], c);
      CeilDivStep(|fw|, c);
      var rest := Chunks(fw[k..], c);
      assert Chunks(fw, c) == [fw[..k]] + rest;
      assert Chunks(fw, c)[1..] == rest;
      assert fw[..k] + fw[k..] == fw;
    }
  }

  /** The converse: no other way of cutting satisfies the shape, so the packets are determined. */
  lemma {:induction false} ChunksUnique(parts: seq<seq<Byte>>, c: nat)
    requires c > 0 && WellCut(parts, c)
    ensures parts == Chunks(Flatten(parts), c)
    decreases |parts|
  {
    if parts != [] {
      var rest := parts[1..];
      assert WellCut(rest, c) by {
        assert forall i :: 0 <= i < |rest| ==> rest[i] == parts[i + 1];
      }
      ChunksUnique(rest, c);
      var fw := Flatten(parts);
      assert fw == parts[0] + Flatten(rest);
      if rest == [] {
        assert Flatten(rest) == [];
      } else {
        assert |parts[0]| == c;
      }
      assert Min(|fw|, c) == |parts[0]|;
      assert fw[..|parts[0]|] == parts[0] && fw[|parts[0]|..] == Flatten(rest);
    }
  }

  /** Chunk i is the slice the loop copies when its offset is i * c. */
  lemma {:induction false} ChunkAt(fw: seq<Byte>, c: nat, i: nat)
    requires c > 0 && i < |Chunks(fw, c)|
    ensures i * c < |fw|
    ensures Chunks(fw, c)[i] == fw[i * c..i * c + Min(|fw| - i * c, c)]
  {
    ChunkAtOffset(fw, c, i, i * c);
  }

  lemma {:induction false} ChunkAtOffset(fw: seq<Byte>, c: nat, i: nat, off: nat)
    requires c > 0 && i < |Chunks(fw, c)| && off == i * c
    ensures off < |fw| && Chunks(fw, c)[i] == fw[off..off + Min(|fw| - off, c)]
    decreases i
  {
    if i > 0 {
      OneLess(i, c);
      var k := Min(|fw|, c);
      var rest := fw[k..];
      assert Chunks(fw, c)[i] == Chunks(rest, c)[i - 1];
      ChunkAtOffset(rest, c, i - 1, off - c);
      SliceOfRest(fw, c, off - c, off - c + Min(|fw| - off, c));
    }
  }

  lemma OneLess(i: nat, c: nat)
    requires i > 0
    ensures (i - 1) * c == i * c - c && i * c >= c
  {
  }

  lemma SliceOfRest(fw: seq<Byte>, k: nat, lo: nat, hi: nat)
    requires lo <= hi && k + hi <= |fw|
    ensures fw[k..][lo..hi] == fw[k + lo..k + hi]
  {
  }

  /** Both host tools stage the same image, whatever their packet sizes. */
  lemma BothToolsSameImage(fw: seq<Byte>)
    ensures Flatten(Chunks(fw, TCP_CHUNK)) == Flatten(Chunks(fw, USB_CHUNK)) == fw
    ensures forall p :: p in Chunks(fw, TCP_CHUNK) ==> 1 + |p| <= MTU_SIZE
    ensures forall p :: p in Chunks(fw, USB_CHUNK) ==> 1 + |p| <= 64
  {
    ChunksRoundTrip(fw, TCP_CHUNK);
    ChunksRoundTrip(fw, USB_CHUNK);
  }
}
