/** Little-endian words and the truncating copy every encoder is built from
    (`copy_into` in aviate-core/src/replicable.rs). */
module Bytes {
  import opened Common

  type Byte = x: int | 0 <= x < 256

  /** `to_le_bytes` of a `width`-byte word. */
  function LE(x: nat, width: nat): (s: seq<Byte>)
    ensures |s| == width
  {
    if width == 0 then [] else [x % 256] + LE(x / 256, width - 1)
  }

  function FromLE(s: seq<Byte>): nat { if s == [] then 0 else s[0] + 256 * FromLE(s[1..]) }

  function Pow256(width: nat): nat { if width == 0 then 1 else 256 * Pow256(width - 1) }

  lemma {:induction false} RoundTrip(x: nat, width: nat)
    requires x < Pow256(width)
    ensures FromLE(LE(x, width)) == x
  {
    if width == 0 {
    } else {
      RoundTrip(x / 256, width - 1);
      assert LE(x, width)[1..] == LE(x / 256, width - 1);
    }
  }

  lemma Words16(x: U16, y: U16)
    requires LE(x, 2) == LE(y, 2)
    ensures x == y
  {
    assert Pow256(2) == 0x1_0000;
    RoundTrip(x, 2);
    RoundTrip(y, 2);
  }

  lemma Words32(x: U32, y: U32)
    requires LE(x, 4) == LE(y, 4)
    ensures x == y
  {
    assert Pow256(4) == 0x1_0000_0000 by { assert Pow256(2) == 0x1_0000; }
    RoundTrip(x, 4);
    RoundTrip(y, 4);
  }

  lemma Words64(x: U64, y: U64)
    requires LE(x, 8) == LE(y, 8)
    ensures x == y
  {
    assert Pow256(8) == 0x1_0000_0000_0000_0000 by {
      assert Pow256(2) == 0x1_0000;
      assert Pow256(4) == 0x1_0000_0000;
      assert Pow256(6) == 0x1_0000_0000_0000;
    }
    RoundTrip(x, 8);
    RoundTrip(y, 8);
  }

  /** Equal concatenations of equally long heads have equal heads and tails. */
  lemma Split(a: seq<Byte>, b: seq<Byte>, c: seq<Byte>, d: seq<Byte>)
    requires |a| == |c| && a + b == c + d
    ensures a == c && b == d
  {
    assert a == (a + b)[..|a|] && b == (a + b)[|a|..];
    assert c == (c + d)[..|c|] && d == (c + d)[|c|..];
  }

  // ---------- writing into a buffer ----------

  /** `s` with as much of `bytes` as fits written from `start` on. */
  function Overlay(s: seq<Byte>, start: nat, bytes: seq<Byte>): (r: seq<Byte>)
    requires start <= |s|
    ensures |r| == |s|
  {
    var n := Min(|s| - start, |bytes|);
    s[..start] + bytes[..n] + s[start + n..]
  }

  /** What `Overlay` means byte by byte. */
  lemma OverlayAt(s: seq<Byte>, start: nat, bytes: seq<Byte>, i: nat)
    requires start <= |s| && i < |s|
    ensures Overlay(s, start, bytes)[i] == if start <= i < start + |bytes| then bytes[i - start] else s[i]
  {
  }

  /** Writing one piece and then another at the advanced cursor is writing both at once. */
  lemma OverlayChain(s: seq<Byte>, start: nat, a: seq<Byte>, b: seq<Byte>)
    requires start <= |s|
    ensures var w := Min(|s| - start, |a|);
            && Overlay(Overlay(s, start, a), start + w, b) == Overlay(s, start, a + b)
            && w + Min(|s| - start - w, |b|) == Min(|s| - start, |a + b|)
  {
    var w := Min(|s| - start, |a|);
    forall i | 0 <= i < |s|
      ensures Overlay(Overlay(s, start, a), start + w, b)[i] == Overlay(s, start, a + b)[i]
    {
      OverlayAt(s, start, a, i);
      OverlayAt(Overlay(s, start, a), start + w, b, i);
      OverlayAt(s, start, a + b, i);
    }
  }

  /** `copy_into(&mut buf[start..], offset, bytes)`: an offset beyond the slice writes nothing. */
  method CopyInto(buf: array<Byte>, start: nat, offset: nat, bytes: seq<Byte>) returns (n: nat)
    requires start <= buf.Length
    modifies buf
    ensures n == if start + offset > buf.Length then 0 else Min(buf.Length - start - offset, |bytes|)
    ensures start + offset <= buf.Length ==> buf[..] == Overlay(old(buf[..]), start + offset, bytes)
    ensures start + offset > buf.Length ==> buf[..] == old(buf[..])
  {
    var remaining := if offset > buf.Length - start then 0 else buf.Length - start - offset;
    n := Min(remaining, |bytes|);
    if n > 0 {
      forall i | 0 <= i < n {
        buf[start + offset + i] := bytes[i];
      }
    }
  }

  /** `w` bytes of `acc` have been written from `start` on, and nothing else. */
  ghost predicate Written(now: seq<Byte>, before: seq<Byte>, start: nat, acc: seq<Byte>, w: nat) {
    start <= |before| && now == Overlay(before, start, acc) && w == Min(|before| - start, |acc|)
  }

  /** One `w += copy_into(buf, w, bytes)`. */
  method Put(buf: array<Byte>, start: nat, w: nat, bytes: seq<Byte>, ghost before: seq<Byte>, ghost acc: seq<Byte>)
    returns (next: nat)
    requires Written(buf[..], before, start, acc, w)
    modifies buf
    ensures Written(buf[..], before, start, acc + bytes, next)
  {
    OverlayChain(before, start, acc, bytes);
    var n := CopyInto(buf, start, w, bytes);
    next := w + n;
  }

  lemma NothingWritten(s: seq<Byte>, start: nat)
    requires start <= |s|
    ensures Written(s, s, start, [], 0)
  {
  }
}
