// Bytes, little-endian words and in-place patching of byte sequences.
module Bytes {

  type byte = b: int | 0 <= b < 256

  // The 16-bit word stored little-endian at offset `at`.
  function Le16(s: seq<byte>, at: nat): (v: nat)
    requires at + 2 <= |s|
    ensures v < 0x1_0000
  {
    s[at] as nat + 0x100 * s[at + 1] as nat
  }

  // The 32-bit word stored little-endian at offset `at`.
  function Le32(s: seq<byte>, at: nat): (v: nat)
    requires at + 4 <= |s|
    ensures v < 0x1_0000_0000
  {
    Le16(s, at) + 0x1_0000 * Le16(s, at + 2)
  }

  function ToLe16(v: nat): (s: seq<byte>)
    requires v < 0x1_0000
    ensures |s| == 2 && Le16(s, 0) == v
  {
    [v % 0x100, v / 0x100]
  }

  function ToLe32(v: nat): (s: seq<byte>)
    requires v < 0x1_0000_0000
    ensures |s| == 4 && Le32(s, 0) == v
  {
    var q := v / 0x1_0000;
    ToLe16(v % 0x1_0000) + ToLe16(q)
  }

  // `s` with the stretch starting at `at` overwritten by `t`.
  function Patch<T>(s: seq<T>, at: nat, t: seq<T>): (r: seq<T>)
    requires at + |t| <= |s|
    ensures |r| == |s|
  {
    s[..at] + t + s[at + |t|..]
  }

  lemma PatchParts<T>(s: seq<T>, at: nat, t: seq<T>)
    requires at + |t| <= |s|
    ensures Patch(s, at, t)[..at] == s[..at]
    ensures Patch(s, at, t)[at..at + |t|] == t
    ensures Patch(s, at, t)[at + |t|..] == s[at + |t|..]
  {
  }

  lemma PatchAppend<T>(s: seq<T>, at: nat, a: seq<T>, b: seq<T>)
    requires at + |a| + |b| <= |s|
    ensures Patch(s, at, []) == s
    ensures Patch(Patch(s, at, a), at + |a|, b) == Patch(s, at, a + b)
  {
  }

  lemma PatchElements<T>(s: seq<T>, at: nat, t: seq<T>)
    requires at + |t| <= |s|
    ensures forall j :: 0 <= j < |s| ==> Patch(s, at, t)[j] == if at <= j < at + |t| then t[j - at] else s[j]
  {
  }

  lemma PatchTake<T>(s: seq<T>, at: nat, t: seq<T>, n: nat)
    requires at + |t| <= n <= |s|
    ensures Patch(s, at, t)[..n] == Patch(s[..n], at, t)
  {
  }

  // memcpy into the middle of a buffer.
  method CopyInto(data: array<byte>, at: nat, s: seq<byte>)
    requires at + |s| <= data.Length
    modifies data
    ensures data[..] == Patch(old(data[..]), at, s)
  {
    for i := 0 to |s|
      invariant forall j :: 0 <= j < data.Length ==>
        data[j] == if at <= j < at + i then s[j - at] else old(data[j])
    {
      data[at + i] := s[i];
    }
  }

  // A patched word reads back, and a word beside it is as before.
  lemma PatchedWord(s: seq<byte>, at: nat, v: nat, x: nat)
    requires at + 4 <= |s| && v < 0x1_0000_0000
    requires x + 4 <= |s| && (x == at || x + 4 <= at || at + 4 <= x)
    ensures Le32(Patch(s, at, ToLe32(v)), x) == if x == at then v else Le32(s, x)
  {
    var t := ToLe32(v);
    var p := Patch(s, at, t);
    if x == at {
      assert p[at..at + 4] == t;
      assert Le32(p, at) == Le32(p[at..at + 4], 0);
    } else {
      assert p[x..x + 4] == s[x..x + 4];
      assert Le32(p, x) == Le32(p[x..x + 4], 0);
      assert Le32(s, x) == Le32(s[x..x + 4], 0);
    }
  }

  // A word determines its bytes.
  lemma SameWordSameBytes(s: seq<byte>, t: seq<byte>, at: nat)
    requires at + 4 <= |s| && at + 4 <= |t| && Le32(s, at) == Le32(t, at)
    ensures s[at..at + 4] == t[at..at + 4]
  {
    assert Le16(s, at) == Le16(t, at) && Le16(s, at + 2) == Le16(t, at + 2);
  }
}
