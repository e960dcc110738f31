// The Internet checksum: its 16-bit one's-complement sum in both byte orders, the header that carries
// it and the check on arrival.
module NetChecksum {
  import opened Bytes

  type word = n: nat | n < 0x1_0000
  type sum32 = n: nat | n < 0x1_0000_0000

  const ONES: nat := 0xFFFF

  // ----- sums of words -----

  function Sum(words: seq<word>): nat { if words == [] then 0 else words[0] + Sum(words[1..]) }

  function High(a: byte, b: byte): word { 0x100 * a + b }

  function Low(a: byte, b: byte): word { a + 0x100 * b }

  // The words of a packet in network order, an odd byte at the end being the high half of one.
  function BigWords(data: seq<byte>): seq<word>
  {
    if data == [] then []
    else if |data| == 1 then [High(data[0], 0)]
    else [High(data[0], data[1])] + BigWords(data[2..])
  }

  // The words as the processor reads them.
  function NativeWords(data: seq<byte>): (w: seq<word>)
    requires |data| % 2 == 0
    ensures |w| == |data| / 2
  {
    if data == [] then [] else [Low(data[0], data[1])] + NativeWords(data[2..])
  }

  // Carries added back in until none is left.
  function Folded(sum: nat): (r: nat)
    ensures r <= ONES
  {
    if sum > ONES then Folded(sum % 0x1_0000 + sum / 0x1_0000) else sum
  }

  // Folding keeps the value modulo 65535, and only zero gives zero.
  lemma {:induction false} FoldedMeaning(sum: nat)
    ensures Folded(sum) % ONES == sum % ONES && (Folded(sum) == 0 <==> sum == 0)
  {
    if sum > ONES {
      var next := sum % 0x1_0000 + sum / 0x1_0000;
      AddMultiple(next, sum / 0x1_0000);
      assert sum == next + ONES * (sum / 0x1_0000);
      FoldedMeaning(next);
    }
  }

  lemma AddMultiple(n: nat, q: nat)
    ensures (n + ONES * q) % ONES == n % ONES
  {
  }

  function Complement(w: nat): nat
    requires w <= ONES
  {
    ONES - w
  }

  // The sum as the 32-bit counter holds it.
  function Counted(words: seq<word>): sum32 { Sum(words) % 0x1_0000_0000 }

  function Network(data: seq<byte>): nat { Complement(Folded(Counted(BigWords(data)))) }

  function Native(data: seq<byte>): nat
    requires |data| % 2 == 0
  {
    Complement(Folded(Counted(NativeWords(data))))
  }

  lemma {:induction false} SumBound(words: seq<word>)
    ensures Sum(words) <= ONES * |words|
  {
    if words != [] {
      SumBound(words[1..]);
    }
  }

  const MOST_WORDS: nat := 65537

  // Up to 65537 words the counter cannot overflow, and that is the most: 65538 can.
  lemma NoOverflow(words: seq<word>)
    requires |words| <= MOST_WORDS
    ensures Counted(words) == Sum(words)
  {
    SumBound(words);
  }

  lemma OverflowBeyond()
    ensures Sum(seq(MOST_WORDS + 1, _ => ONES)) >= 0x1_0000_0000
  {
    SumOfOnes(MOST_WORDS + 1);
  }

  lemma {:induction false} SumOfOnes(n: nat)
    ensures Sum(seq(n, _ => ONES)) == ONES * n
  {
    if n > 0 {
      assert seq(n, _ => ONES)[1..] == seq(n - 1, _ => ONES);
      SumOfOnes(n - 1);
    }
  }

  // ----- the header -----

  lemma {:induction false} SumUpdate(words: seq<word>, k: nat, v: word)
    requires k < |words|
    ensures Sum(words[k := v]) == Sum(words) - words[k] + v
  {
    if k == 0 {
      assert words[0 := v][1..] == words[1..];
    } else {
      assert words[k := v][1..] == words[1..][k - 1 := v];
      SumUpdate(words[1..], k - 1, v);
    }
  }

  predicate Accepted(words: seq<word>) { Folded(Counted(words)) == 0xFFFF }

  // With the checksum of the rest in a field that was zero, the whole is accepted.
  lemma StampedAccepted(words: seq<word>, k: nat)
    requires k < |words| <= MOST_WORDS && words[k] == 0
    ensures Accepted(words[k := Complement(Folded(Counted(words)))])
  {
    var s := Sum(words);
    var c := Complement(Folded(Counted(words)));
    NoOverflow(words);
    NoOverflow(words[k := c]);
    SumUpdate(words, k, c);
    FoldedMeaning(s);
    FoldedMeaning(s + c);
    FoldedTop(s, c);
  }

  lemma FoldedTop(s: nat, c: nat)
    requires c == ONES - Folded(s)
    ensures Folded(s + c) == ONES
  {
    FoldedMeaning(s);
    FoldedMeaning(s + c);
    var q := s / ONES;
    assert s == ONES * q + s % ONES;
    MultipleFolds(s, c, Folded(s));
  }

  lemma MultipleFolds(s: nat, c: nat, f: nat)
    requires f <= ONES && f % ONES == s % ONES && c == ONES - f && (f == 0 <==> s == 0)
    ensures (s + c) % ONES == 0 && s + c > 0
    ensures Folded(s + c) % ONES == 0 && Folded(s + c) > 0
  {
    var q, p := s / ONES, f / ONES;
    assert s + c == ONES * (q - p + 1);
    FoldedMeaning(s + c);
  }

  // A message that was accepted is accepted with one word changed exactly if the two words are the
  // same modulo 65535: only 0 and FFFF are mistaken for each other.
  lemma OneWordChanged(words: seq<word>, k: nat, v: word)
    requires k < |words| <= MOST_WORDS && Accepted(words)
    ensures Accepted(words[k := v]) <==>
      v == words[k] || ({v, words[k]} == {0, ONES} && Sum(words[k := v]) > 0)
  {
    var changed := words[k := v];
    NoOverflow(words);
    NoOverflow(changed);
    SumUpdate(words, k, v);
    FoldedMeaning(Sum(words));
    FoldedMeaning(Sum(changed));
    FoldedIsOnes(Sum(words));
    FoldedIsOnes(Sum(changed));
    var w := words[k];
    ChangedMod(Sum(words), w, v);
    if {v, w} == {0, ONES} {
      assert v in {0, ONES} && w in {0, ONES};
    }
  }

  lemma FoldedIsOnes(s: nat)
    ensures Folded(s) == ONES <==> s > 0 && s % ONES == 0
  {
    FoldedMeaning(s);
  }

  lemma ChangedMod(s: nat, w: word, v: word)
    requires s % ONES == 0 && s >= w
    ensures (s - w + v) % ONES == 0 <==> v == w || (v == 0 && w == ONES) || (v == ONES && w == 0)
  {
    var q := s / ONES;
    assert s == ONES * q;
    var d := v - w;
    if (s - w + v) % ONES == 0 {
      var p := (s - w + v) / ONES;
      assert d == ONES * (p - q);
    }
    if v == 0 && w == ONES {
      assert s - w + v == ONES * (q - 1);
    }
    if v == ONES && w == 0 {
      assert s - w + v == ONES * (q + 1);
    }
  }

  // ----- byte order -----

  function Swapped(w: nat): nat
    requires w <= ONES
  {
    w % 0x100 * 0x100 + w / 0x100
  }

  // A word times 256 is its bytes swapped, modulo 65535.
  lemma {:induction false} SumsSwap(data: seq<byte>)
    requires |data| % 2 == 0
    ensures 0x100 * Sum(NativeWords(data)) % ONES == Sum(BigWords(data)) % ONES
    ensures Sum(NativeWords(data)) == 0 <==> Sum(BigWords(data)) == 0
    ensures |BigWords(data)| == |data| / 2
    decreases |data|
  {
    if data != [] {
      SumsSwap(data[2..]);
      var l, b := Sum(NativeWords(data[2..])), Sum(BigWords(data[2..]));
      var a, c := data[0], data[1];
      assert 0x100 * (Low(a, c) + l) == 0x100 * l + High(a, c) + ONES * c;
      SameMod(0x100 * l, b, High(a, c), c);
    }
  }

  lemma SameMod(x: nat, y: nat, h: nat, c: nat)
    requires x % ONES == y % ONES
    ensures (x + h + ONES * c) % ONES == (h + y) % ONES
  {
    var p, q := x / ONES, y / ONES;
    assert x + h + ONES * c == h + y + ONES * (c + p - q);
  }

  lemma SwapMod(w: nat)
    requires w <= ONES
    ensures Swapped(w) <= ONES && Swapped(w) % ONES == 0x100 * w % ONES && (Swapped(w) == 0 <==> w == 0)
    ensures Swapped(Complement(w)) == Complement(Swapped(w))
  {
    var h, l := w / 0x100, w % 0x100;
    assert 0x100 * w == Swapped(w) + ONES * h;
    SwapComplement(w, h, l);
  }

  lemma SwapComplement(w: nat, h: nat, l: nat)
    requires h < 0x100 && l < 0x100 && w == 0x100 * h + l
    ensures Swapped(Complement(w)) == Complement(Swapped(w))
  {
    var c := Complement(w);
    assert c == 0x100 * (0xFF - h) + (0xFF - l);
    assert c / 0x100 == 0xFF - h && c % 0x100 == 0xFF - l;
    assert w / 0x100 == h && w % 0x100 == l;
  }

  lemma SameFold(f: nat, g: nat)
    requires f <= ONES && g <= ONES && f % ONES == g % ONES && (f == 0 <==> g == 0)
    ensures f == g
  {
  }

  lemma TimesMod(f: nat, s: nat)
    requires f % ONES == s % ONES
    ensures 0x100 * f % ONES == 0x100 * s % ONES
  {
    var p, q := f / ONES, s / ONES;
    assert 0x100 * f == 0x100 * s + ONES * (0x100 * (p - q));
  }

  // The checksum in the processor's order is the byte swap of the one in network order.
  lemma ChecksumsSwap(data: seq<byte>)
    requires |data| % 2 == 0 && |data| <= 2 * MOST_WORDS
    ensures Native(data) == Swapped(Network(data)) && Network(data) == Swapped(Native(data))
  {
    hide Folded, Swapped;
    var l, b := Sum(NativeWords(data)), Sum(BigWords(data));
    SumsSwap(data);
    NoOverflow(NativeWords(data));
    NoOverflow(BigWords(data));
    FoldedMeaning(l);
    FoldedMeaning(b);
    var f, g := Folded(l), Folded(b);
    TimesMod(f, l);
    SwapMod(f);
    SameFold(Swapped(f), g);
    SwapTwice(f);
    SwapMod(Swapped(f));
  }

  lemma SwapTwice(w: nat)
    requires w <= ONES
    ensures Swapped(w) <= ONES && Swapped(Swapped(w)) == w
  {
    var h, l := w / 0x100, w % 0x100;
    assert Swapped(w) == l * 0x100 + h;
  }

  // An odd last byte counts as if a zero followed it.
  lemma {:induction false} OddPadded(data: seq<byte>)
    requires |data| % 2 == 1
    ensures BigWords(data + [0]) == BigWords(data)
    decreases |data|
  {
    if |data| == 1 {
      assert (data + [0])[2..] == [];
    } else {
      assert (data + [0])[2..] == data[2..] + [0];
      OddPadded(data[2..]);
    }
  }

  // ----- the loops -----

  method FoldCarries(sum: sum32) returns (r: nat)
    ensures r == Folded(sum)
  {
    r := sum;
    while r > ONES
      invariant Folded(r) == Folded(sum)
    {
      r := r % 0x1_0000 + r / 0x1_0000;
    }
  }

  method ChecksumOf(data: seq<byte>) returns (c: nat)
    ensures c == Network(data)
  {
    hide Sum, BigWords, Folded;
    var sum: sum32 := 0;
    var i := 0;
    ghost var total: nat := 0;
    while |data| - i > 1
      invariant i <= |data| && i % 2 == 0
      invariant sum == total % 0x1_0000_0000 && total + Sum(BigWords(data[i..])) == Sum(BigWords(data))
    {
      assert data[i..][2..] == data[i + 2..];
      BigStep(data[i..]);
      AddMod(total, High(data[i], data[i + 1]));
      total := total + High(data[i], data[i + 1]);
      sum := (sum + High(data[i], data[i + 1])) % 0x1_0000_0000;
      i := i + 2;
    }
    BigStep(data[i..]);
    if |data| - i > 0 {
      AddMod(total, High(data[i], 0));
      sum := (sum + High(data[i], 0)) % 0x1_0000_0000;
    }
    var f := FoldCarries(sum);
    c := Complement(f);
  }

  // The native sum over the first words of a packet in memory.
  method SumWords(packet: array<byte>, words: nat) returns (sum: sum32)
    requires 2 * words <= packet.Length
    ensures sum == Counted(NativeWords(packet[..2 * words]))
  {
    hide Sum, NativeWords;
    sum := 0;
    ghost var data := packet[..2 * words];
    ghost var total: nat := 0;
    var i := 0;
    while i < words
      invariant i <= words
      invariant sum == total % 0x1_0000_0000 && total + Sum(NativeWords(data[2 * i..])) == Sum(NativeWords(data))
    {
      assert data[2 * i..][2..] == data[2 * (i + 1)..];
      NativeStep(data[2 * i..]);
      AddMod(total, Low(packet[2 * i], packet[2 * i + 1]));
      total := total + Low(packet[2 * i], packet[2 * i + 1]);
      sum := (sum + Low(packet[2 * i], packet[2 * i + 1])) % 0x1_0000_0000;
      i := i + 1;
    }
    NativeStep(data[2 * i..]);
  }

  lemma AddMod(x: nat, y: nat)
    ensures (x % 0x1_0000_0000 + y) % 0x1_0000_0000 == (x + y) % 0x1_0000_0000
  {
  }

  lemma BigStep(data: seq<byte>)
    ensures |data| > 1 ==> Sum(BigWords(data)) == High(data[0], data[1]) + Sum(BigWords(data[2..]))
    ensures |data| == 1 ==> Sum(BigWords(data)) == High(data[0], 0)
    ensures data == [] ==> Sum(BigWords(data)) == 0
  {
  }

  lemma NativeStep(data: seq<byte>)
    requires |data| % 2 == 0
    ensures data == [] ==> Sum(NativeWords(data)) == 0
    ensures data != [] ==> Sum(NativeWords(data)) == Low(data[0], data[1]) + Sum(NativeWords(data[2..]))
  {
  }

  lemma {:induction false} NativeAt(data: seq<byte>, k: nat)
    requires |data| % 2 == 0 && 2 * k < |data|
    ensures NativeWords(data)[k] == Low(data[2 * k], data[2 * k + 1])
  {
    if k > 0 {
      NativeAt(data[2..], k - 1);
    }
  }

  lemma NativeUpdate(data: seq<byte>, k: nat, v: word, other: seq<byte>)
    requires |data| % 2 == 0 && 2 * k < |data| && |other| == |data|
    requires other == data[2 * k := v % 0x100][2 * k + 1 := v / 0x100]
    ensures NativeWords(other) == NativeWords(data)[k := v]
  {
    var w, o := NativeWords(data), NativeWords(other);
    forall j | 0 <= j < |w|
      ensures o[j] == w[k := v][j]
    {
      NativeAt(data, j);
      NativeAt(other, j);
    }
  }

  const HEADER_WORDS: nat := 10
  const CHECKSUM_WORD: nat := 5

  // What sending does to a filled header of 20 bytes: the field is cleared, and then holds the
  // complement of the sum.
  method StampHeader(ip: array<byte>)
    requires ip.Length >= 20
    modifies ip
    ensures Accepted(NativeWords(ip[..20]))
    ensures forall i :: 0 <= i < ip.Length && i != 10 && i != 11 ==> ip[i] == old(ip[i])
  {
    ip[2 * CHECKSUM_WORD] := 0;
    ip[2 * CHECKSUM_WORD + 1] := 0;
    ghost var data := ip[..2 * HEADER_WORDS];
    NativeAt(data, CHECKSUM_WORD);
    var sum := SumWords(ip, HEADER_WORDS);
    var f := FoldCarries(sum);
    var c: word := Complement(f);
    ip[2 * CHECKSUM_WORD] := c % 0x100;
    ip[2 * CHECKSUM_WORD + 1] := c / 0x100;
    NativeUpdate(data, CHECKSUM_WORD, c, ip[..2 * HEADER_WORDS]);
    StampedAccepted(NativeWords(data), CHECKSUM_WORD);
  }

  // The check on arrival of a packet of `length` bytes, over the header length that the packet gives.
  // `memory` is what lies from its start on: the header may be said to be longer than the packet.
  method CheckHeader(memory: array<byte>, length: int) returns (ok: bool)
    requires length >= 20 ==> memory.Length >= 20 && memory.Length >= memory[0] as nat % 16 * 4
    ensures length < 20 ==> !ok
    ensures length >= 20 ==> ok == Accepted(NativeWords(memory[..memory[0] as nat % 16 * 4]))
  {
    if length < 2 * HEADER_WORDS {
      return false;
    }
    var headerLength := memory[0] as nat % 16 * 4;
    var sum := SumWords(memory, headerLength / 2);
    var f := FoldCarries(sum);
    ok := f == ONES;
  }

  // A header sent with the length the sender writes is accepted on arrival.
  method SendAndReceive(ip: array<byte>, length: int) returns (ok: bool)
    requires 20 <= length <= ip.Length && ip[0] == 0x45
    modifies ip
    ensures ok
  {
    StampHeader(ip);
    ok := CheckHeader(ip, length);
  }
}
