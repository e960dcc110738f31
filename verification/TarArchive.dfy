// A tar archive in memory: how a list of entries is laid out in 512-byte blocks, and the walk from
// header to header.
module TarArchive {
  import opened CString
  import opened Slices

  const BLOCK: nat := 512
  const NUL: char := '\0'

  // What one header and its data hold. `fields` and `rest` are the parts of the header that nothing
  // here reads: mode and owner before the size, and what follows the type.
  datatype Entry = Entry(name: string, fields: string, size: string, times: string, kind: char, rest: string, data: string)

  function Zeros(n: nat): string { seq(n, _ => '\0') }

  // ----- the size field -----

  predicate IsOctal(c: char) { '0' <= c <= '7' }

  function WithDigit(n: nat, c: char): nat
    requires IsOctal(c)
  {
    (n * 8 + (c as int - '0' as int)) % 0x1_0000_0000
  }

  function OctalFrom(s: string, n: nat): nat
  {
    if s == "" || !IsOctal(s[0]) then n
    else OctalFrom(s[1..], WithDigit(n, s[0]))
  }

  // `get_size` on a size field: leading blanks, then octal digits.
  function SizeOf(field: string): nat { OctalFrom(SkipOnlySpaces(field), 0) }

  // The field as POSIX.1 has it for a size: eleven octal digits with zeros in front, and a NUL.
  function OctalDigits(n: nat, digits: nat): (s: string)
    ensures |s| == digits
  {
    if digits == 0 then "" else OctalDigits(n / 8, digits - 1) + ['0' + (n % 8) as char]
  }

  function UstarSize(n: nat): string { OctalDigits(n, 11) + "\0" }

  // Octal digits in front of `tail` are read onto the number so far, which is a 32-bit word.
  lemma {:induction false} OctalReads(n: nat, digits: nat, tail: string)
    requires n < Power8(digits)
    ensures OctalFrom(OctalDigits(n, digits) + tail, 0) == OctalFrom(tail, n % 0x1_0000_0000)
    decreases digits
  {
    if digits > 0 {
      var c := '0' + (n % 8) as char;
      assert OctalDigits(n, digits) + tail == OctalDigits(n / 8, digits - 1) + ([c] + tail);
      OctalReads(n / 8, digits - 1, [c] + tail);
      OctalDigitReads(n, c, tail);
    } else {
      assert OctalDigits(n, digits) + tail == tail;
    }
  }

  lemma OctalDigitReads(n: nat, c: char, tail: string)
    requires c == '0' + (n % 8) as char
    ensures OctalFrom([c] + tail, n / 8 % 0x1_0000_0000) == OctalFrom(tail, n % 0x1_0000_0000)
  {
    assert ([c] + tail)[1..] == tail;
    DigitOnWord(n);
  }

  lemma DigitOnWord(n: nat)
    ensures (n / 8 % 0x1_0000_0000 * 8 + n % 8) % 0x1_0000_0000 == n % 0x1_0000_0000
  {
    var q, k := n / 8, n / 8 / 0x1_0000_0000;
    assert q == k * 0x1_0000_0000 + q % 0x1_0000_0000;
    assert n == q * 8 + n % 8;
    assert n == (q % 0x1_0000_0000 * 8 + n % 8) + 8 * k * 0x1_0000_0000;
  }

  function Power8(d: nat): nat { if d == 0 then 1 else 8 * Power8(d - 1) }

  lemma PowerEleven()
    ensures Power8(11) == 0x2_0000_0000
  {
    assert Power8(4) == 0x1000;
    assert Power8(8) == 0x100_0000;
  }

  // A size field in any form: blanks, octal digits, and whatever comes after them.
  lemma FieldReads(blanks: nat, n: nat, digits: nat, tail: string)
    requires n < Power8(digits) && (tail != "" ==> !('0' <= tail[0] <= '7') && (digits == 0 ==> tail[0] != ' '))
    ensures SizeOf(Blanks(blanks) + (OctalDigits(n, digits) + tail)) == n % 0x1_0000_0000
  {
    hide OctalFrom, OctalDigits, SkipOnlySpaces;
    var s := OctalDigits(n, digits) + tail;
    OctalDigitsOctal(n, digits);
    assert s != "" && digits > 0 ==> s[0] == OctalDigits(n, digits)[0];
    assert digits == 0 ==> s == tail;
    SkipsSpaces(blanks, s);
    OctalReads(n, digits, tail);
    OctalStops(n % 0x1_0000_0000, tail);
  }

  lemma OctalStops(n: nat, tail: string)
    requires tail != "" ==> !('0' <= tail[0] <= '7')
    ensures OctalFrom(tail, n) == n
  {
  }

  // Any size below 4 GiB comes back from a field as POSIX.1 has it.
  lemma UstarReads(n: nat)
    requires n < 0x1_0000_0000
    ensures |UstarSize(n)| == 12 && SizeOf(UstarSize(n)) == n
  {
    hide OctalFrom, OctalDigits, SizeOf;
    PowerEleven();
    FieldReads(0, n, 11, "\0");
    assert Blanks(0) + (OctalDigits(n, 11) + "\0") == UstarSize(n);
  }

  lemma {:induction false} OctalDigitsOctal(n: nat, digits: nat)
    ensures forall k :: 0 <= k < digits ==> IsOctal(OctalDigits(n, digits)[k])
    decreases digits
  {
    if digits > 0 {
      OctalDigitsOctal(n / 8, digits - 1);
    }
  }

  // ----- layout -----

  function Blocks(size: nat): nat { (size + 511) / BLOCK }

  // A name of 1 to 99 characters ending in its terminator, and a size field that says how long the
  // data are.
  ghost predicate Fit(e: Entry)
  {
    && 1 <= |e.name| <= 99 && '\0' !in e.name
    && |e.fields| == 24 && |e.size| == 12 && |e.times| == 20 && |e.rest| == 355
    && SizeOf(e.size) == |e.data|
  }

  function Header(e: Entry): string
    requires |e.name| <= 100
  {
    e.name + Zeros(100 - |e.name|) + (e.fields + (e.size + (e.times + ([e.kind] + e.rest))))
  }

  // How many zeros fill up data of that size to a multiple of 512 bytes.
  function Padding(size: nat): (n: nat)
    ensures n < 512 && (size + n) % 512 == 0
  {
    (512 - size % 512) % 512
  }

  function Stored(e: Entry): (s: string)
    requires |e.name| <= 100
  {
    Header(e) + (e.data + Zeros(Padding(|e.data|)))
  }

  function Serial(es: seq<Entry>): string
    requires forall e :: e in es ==> |e.name| <= 100
  {
    if es == [] then "" else Stored(es[0]) + Serial(es[1..])
  }

  // An archive of these entries, closed by a zero block, in a 32-bit address space.
  ghost predicate IsArchive(a: string, es: seq<Entry>)
  {
    && (forall e :: e in es ==> Fit(e))
    && At(a, 0, Serial(es) + Zeros(512)) && |a| < 0x1_0000_0000
  }

  // Where header `k` starts; the end of the entries for `k` one past the last.
  function Offset(es: seq<Entry>, k: nat): nat
    requires k <= |es| && forall e :: e in es ==> |e.name| <= 100
  {
    if k == 0 then 0 else |Stored(es[0])| + Offset(es[1..], k - 1)
  }

  // ----- what lies where -----

  lemma {:induction false} SuffixAt(a: string, at: nat, es: seq<Entry>, k: nat)
    requires k <= |es| && (forall e :: e in es ==> |e.name| <= 100) && At(a, at, Serial(es) + Zeros(BLOCK))
    ensures At(a, at + Offset(es, k), Serial(es[k..]) + Zeros(BLOCK))
    decreases k
  {
    hide Stored, At;
    if k > 0 {
      var rest := Serial(es[1..]) + Zeros(BLOCK);
      assert Serial(es) + Zeros(BLOCK) == Stored(es[0]) + rest;
      AtParts(a, at, Stored(es[0]), rest);
      SuffixAt(a, at + |Stored(es[0])|, es[1..], k - 1);
      assert es[1..][k - 1..] == es[k..];
    }
  }

  lemma {:induction false} NextOffset(es: seq<Entry>, k: nat)
    requires k < |es| && forall e :: e in es ==> |e.name| <= 100
    ensures Offset(es, k + 1) == Offset(es, k) + |Stored(es[k])|
    decreases k
  {
    hide Stored;
    if k > 0 {
      NextOffset(es[1..], k - 1);
    }
  }

  lemma NamesShort(es: seq<Entry>)
    requires forall e :: e in es ==> Fit(e)
    ensures forall e :: e in es ==> |e.name| <= 100
  {
  }

  lemma StoredLength(e: Entry)
    requires Fit(e)
    ensures |Header(e)| == BLOCK && |Stored(e)| == (Blocks(|e.data|) + 1) * BLOCK
  {
    var n := |e.data|;
    assert n + Padding(n) == Blocks(n) * 512;
  }

  // The fields of a header at `p`.
  lemma HeaderAt(a: string, p: nat, e: Entry)
    requires Fit(e) && At(a, p, Stored(e))
    ensures p + BLOCK <= |a|
    ensures At(a, p, e.name) && a[p + |e.name|] == NUL
    ensures At(a, p + 124, e.size) && a[p + 156] == e.kind && At(a, p + BLOCK, e.data)
  {
    hide At;
    StoredLength(e);
    var gap := Zeros(100 - |e.name|);
    AtParts(a, p, Header(e), e.data + Zeros(Padding(|e.data|)));
    AtParts(a, p + BLOCK, e.data, Zeros(Padding(|e.data|)));
    AtParts(a, p, e.name + gap, e.fields + (e.size + (e.times + ([e.kind] + e.rest))));
    AtParts(a, p, e.name, gap);
    AtElement(a, p + |e.name|, gap, 0);
    AtParts(a, p + 100, e.fields, e.size + (e.times + ([e.kind] + e.rest)));
    AtParts(a, p + 124, e.size, e.times + ([e.kind] + e.rest));
    AtParts(a, p + 136, e.times, [e.kind] + e.rest);
    AtParts(a, p + 156, [e.kind], e.rest);
    AtOne(a, p + 156, e.kind);
    AtWithin(a, p, Header(e));
  }

  lemma AtWithin(a: string, p: nat, part: string)
    requires At(a, p, part)
    ensures p + |part| <= |a|
  {
  }

  // What the walk needs at header `k`: where it is, that it does not look like the end, and where its
  // size leads.
  lemma EntryAt(a: string, es: seq<Entry>, k: nat)
    requires IsArchive(a, es) && k < |es|
    ensures var p := Offset(es, k);
      && p + BLOCK <= |a| && a[p] != NUL && At(a, p, Stored(es[k]))
      && At(a, p + 124, es[k].size)
      && Offset(es, k + 1) == p + (Blocks(|es[k].data|) + 1) * BLOCK < |a|
  {
    hide Stored, At, Zeros, Offset, Serial;
    NamesShort(es);
    SuffixAt(a, 0, es, k);
    SuffixAt(a, 0, es, k + 1);
    NextOffset(es, k);
    StoredLength(es[k]);
    var p := Offset(es, k);
    SerialHead(es, k);
    AtParts(a, p, Stored(es[k]), Serial(es[k + 1..]) + Zeros(BLOCK));
    HeaderAt(a, p, es[k]);
    AtElement(a, p, es[k].name, 0);
    AtWithin(a, Offset(es, k + 1), Serial(es[k + 1..]) + Zeros(BLOCK));
    assert |Zeros(BLOCK)| == BLOCK by { ZerosLength(BLOCK); }
  }

  lemma ZerosLength(n: nat)
    ensures |Zeros(n)| == n
  {
  }

  lemma SerialHead(es: seq<Entry>, k: nat)
    requires k < |es| && forall e :: e in es ==> |e.name| <= 100
    ensures Serial(es[k..]) + Zeros(BLOCK) == Stored(es[k]) + (Serial(es[k + 1..]) + Zeros(BLOCK))
  {
    hide Stored, Zeros;
    assert es[k..][1..] == es[k + 1..];
  }

  lemma EndAt(a: string, es: seq<Entry>)
    requires IsArchive(a, es)
    ensures Offset(es, |es|) < |a| && a[Offset(es, |es|)] == NUL
  {
    hide Stored, Offset, Serial, Zeros, At;
    NamesShort(es);
    SuffixAt(a, 0, es, |es|);
    assert es[|es|..] == [];
    NothingSerial();
    AtElement(a, Offset(es, |es|), Zeros(BLOCK), 0);
  }

  lemma NothingSerial()
    ensures Serial([]) + Zeros(BLOCK) == Zeros(BLOCK) && |Zeros(BLOCK)| > 0 && Zeros(BLOCK)[0] == NUL
  {
  }

  // All of it, at any stop of the walk: it is at the end exactly at the zero block.
  lemma WalkAt(a: string, es: seq<Entry>, k: nat)
    requires IsArchive(a, es) && k <= |es|
    ensures var p := Offset(es, k);
      && p < |a| && (a[p] == NUL <==> k == |es|)
      && (k < |es| ==>
           var e := es[k];
           && p + BLOCK <= |a| && At(a, p, e.name) && a[p + |e.name|] == NUL && 1 <= |e.name| <= 99 && NUL !in e.name
           && At(a, p + 124, e.size) && |e.size| == 12 && a[p + 156] == e.kind && At(a, p + BLOCK, e.data)
           && SizeOf(e.size) == |e.data| && Offset(es, k + 1) == p + (Blocks(|e.data|) + 1) * BLOCK)
  {
    hide Stored, At, Zeros, Offset, Serial, SizeOf;
    NamesShort(es);
    if k < |es| {
      EntryAt(a, es, k);
      HeaderAt(a, Offset(es, k), es[k]);
    } else {
      EndAt(a, es);
    }
  }

  lemma Start(es: seq<Entry>)
    requires forall e :: e in es ==> Fit(e)
    ensures (forall e :: e in es ==> |e.name| <= 100) && Offset(es, 0) == 0
  {
  }
}
