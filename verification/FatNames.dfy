// What the 8.3 names of directory entries stand for: how a base and an extension lie in the eleven bytes,
// and which names a search takes for the same.
module FatNames {
  import opened Bytes
  import opened FatDirectory

  // A part of a name, filled up with spaces.
  function Padded(s: seq<byte>, n: nat): (r: seq<byte>)
    requires |s| <= n
    ensures |r| == n
  {
    s + seq(n - |s|, _ => 0x20)
  }

  function Dotted(base: Name, ext: Name): Name { base + (if ext == [] then [] else [0x2E] + ext) }

  // A base of at most eight bytes and an extension of at most three, padded, read as `base.ext`.
  lemma PaddedReads(base: Name, ext: Name)
    requires |base| <= 8 && |ext| <= 3 && 0x20 !in base && 0x20 !in ext
    ensures NameString(Padded(base, 8) + Padded(ext, 3)) == Dotted(base, ext)
  {
    hide RunLength;
    var s := Padded(base, 8) + Padded(ext, 3);
    RunIs(s, 0, 8, |base|);
    RunIs(s, 8, 11, |ext|);
    assert s[0..|base|] == base && s[8..8 + |ext|] == ext;
  }

  // What is stored of a byte: bit 6 is set in it.
  function Stored(s: Name): (r: Name)
    ensures |r| == |s|
  {
    seq(|s|, i requires 0 <= i < |s| => if s[i] as nat / 64 % 2 == 1 then s[i] else s[i] + 64)
  }

  // `base.ext` is stored as its base, cut to eight bytes if what follows is no dot, and its extension, cut to
  // three, each padded.
  lemma DottedStored(base: Name, ext: Name, more: Name)
    requires 0x2E !in base && |base| <= 8 && |ext| <= 3 && (more != [] ==> |ext| == 3)
    ensures FatName(base + ([0x2E] + (ext + more))) == Padded(Stored(base), 8) + Padded(Stored(ext), 3)
  {
    hide RunLength;
    var name := base + ([0x2E] + (ext + more));
    StopsAt(name, 0, if |name| < 8 then |name| else 8, |base|);
    forall x | 0 <= x < 11
      ensures FatName(name)[x] == (Padded(Stored(base), 8) + Padded(Stored(ext), 3))[x]
    {
      DottedByte(base, ext, more, x);
    }
  }

  lemma DottedByte(base: Name, ext: Name, more: Name, x: nat)
    requires |base| <= 8 && |ext| <= 3 && (more != [] ==> |ext| == 3) && x < 11
    ensures FatNameByte(base + ([0x2E] + (ext + more)), |base|, x) == (Padded(Stored(base), 8) + Padded(Stored(ext), 3))[x]
  {
    var name := base + ([0x2E] + (ext + more));
    assert name[|base|] == 0x2E;
    if x >= 8 && |base| + x - 7 < |name| {
      assert name[|base| + x - 7] == (ext + more)[x - 8];
    }
  }

  lemma UndottedStored(base: Name, more: Name)
    requires 0x2E !in base && |base| <= 8 && (more != [] ==> |base| == 8 && more[0] != 0x2E)
    ensures FatName(base + more) == Padded(Stored(base), 8) + Padded([], 3)
  {
    hide RunLength;
    var name := base + more;
    StopsAt(name, 0, if |name| < 8 then |name| else 8, |base|);
  }

  lemma {:induction false} StopsAt(s: seq<byte>, from: nat, end: nat, n: nat)
    requires from <= end <= |s| && n <= end - from && (from + n < end ==> s[from + n] == DOT)
    requires forall x :: from <= x < from + n ==> s[x] != DOT
    ensures RunLength(s, from, end, DOT) == n
    decreases n
  {
    if n > 0 {
      StopsAt(s, from + 1, end, n - 1);
    }
  }

  // Letters, digits, dots and dashes.
  predicate Usual(b: byte) { 0x41 <= b <= 0x5A || 0x61 <= b <= 0x7A || 0x30 <= b <= 0x39 || b in {0x2D, 0x2E} }

  function Capital(b: byte): byte { if 0x61 <= b <= 0x7A then b - 0x20 else b }

  // A search takes two such names for the same exactly if they are, but for the case of letters, as far as
  // both go.
  lemma SameButForCase(a: Name, b: Name)
    requires (forall i :: 0 <= i < |a| ==> Usual(a[i])) && forall i :: 0 <= i < |b| ==> Usual(b[i])
    ensures NamesAgree(a, b) <==> forall i :: 0 <= i < |a| && i < |b| ==> Capital(a[i]) == Capital(b[i])
  {
    hide NamesAgree, Or20, Capital;
    NamesAgreeIff(a, b);
    forall i | 0 <= i < |a| && i < |b|
      ensures Or20(a[i]) == Or20(b[i]) <==> Capital(a[i]) == Capital(b[i])
    {
      CaseFolded(a[i], b[i]);
    }
  }

  lemma CaseFolded(a: byte, b: byte)
    requires Usual(a) && Usual(b)
    ensures Or20(a) == Or20(b) <==> Capital(a) == Capital(b)
  {
    FoldsUp(a);
    FoldsUp(b);
  }

  lemma FoldsUp(b: byte)
    requires Usual(b)
    ensures Or20(b) == if Letter(b) then Capital(b) + 0x20 else b
  {
  }
}
