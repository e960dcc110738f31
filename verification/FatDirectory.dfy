// Directory entries: 32-byte slots, 8.3 names, and the scan for a name.
module FatDirectory {
  import opened Bytes

  const DELETED: byte := 0xE5
  const ATTR_DIRECTORY: nat := 0x10
  const ATTR_LONG_NAME: nat := 0x0F
  const ATTR_ARCHIVE: byte := 0x20
  const SPACE: byte := 0x20
  const DOT: byte := 0x2E

  type Slot = s: seq<byte> | |s| == 32 witness seq(32, _ => 0)

  // A C string without its terminator.
  type Name = seq<byte>

  function Or20(b: byte): byte { if b / 0x20 % 2 == 1 then b else b + 0x20 }

  function Or40(b: byte): byte { if b / 0x40 % 2 == 1 then b else b + 0x40 }

  predicate Terminator(s: Slot) { s[0] == 0 }

  // Neither free, deleted nor part of a long name.
  predicate Visible(s: Slot) { s[0] != 0 && s[0] != DELETED && s[11] % 0x10 != ATTR_LONG_NAME }

  predicate IsDirectory(s: Slot) { s[11] / ATTR_DIRECTORY % 2 == 1 }

  function SlotCluster(s: Slot): nat { 0x1_0000 * Le16(s, 20) + Le16(s, 26) }

  function SlotSize(s: Slot): nat { Le32(s, 28) }

  // ----- names -----

  // How many bytes of s[from..end] come before the first `stop`.
  function RunLength(s: seq<byte>, from: nat, end: nat, stop: byte): (n: nat)
    requires from <= end <= |s|
    ensures n <= end - from && (from + n < end ==> s[from + n] == stop)
    ensures forall x :: from <= x < from + n ==> s[x] != stop
    decreases end - from
  {
    if from == end || s[from] == stop then 0 else 1 + RunLength(s, from + 1, end, stop)
  }

  function Until(s: seq<byte>, from: nat, end: nat, stop: byte): seq<byte>
    requires from <= end <= |s|
  {
    s[from..from + RunLength(s, from, end, stop)]
  }

  // What `fat32_name_to_string` makes of an 11-byte name.
  function NameString(s: seq<byte>): (t: Name)
    requires |s| == 11
    ensures |t| <= 12
  {
    Until(s, 0, 8, SPACE) + if s[8] != SPACE then [DOT] + Until(s, 8, 11, SPACE) else []
  }

  // What `string_to_fat_name` takes as the part before the dot.
  function BaseLength(name: Name): nat { RunLength(name, 0, if |name| < 8 then |name| else 8, DOT) }

  // The comparison stops at the end of either string, so it accepts prefixes; it ignores bit 5.
  predicate AgreeFrom(a: Name, b: Name, i: nat)
    decreases |a| - i
  {
    i >= |a| || i >= |b| || a[i] == 0 || (Or20(a[i]) == Or20(b[i]) && AgreeFrom(a, b, i + 1))
  }

  predicate NamesAgree(a: Name, b: Name) { AgreeFrom(a, b, 0) }

  // Byte `x` of the 8.3 name of `name`, whose base part has length `b`.
  function FatNameByte(name: Name, b: nat, x: nat): byte
    requires b <= |name|
  {
    if x < b then Or40(name[x])
    else if x >= 8 && b < |name| && name[b] == DOT && b + x - 7 < |name| then Or40(name[b + x - 7])
    else SPACE
  }

  // What `string_to_fat_name` makes of a name: setting bit 6 is harmless for letters only.
  function FatName(name: Name): (s: seq<byte>)
    ensures |s| == 11
  {
    var b := BaseLength(name);
    seq(11, x requires 0 <= x < 11 => FatNameByte(name, b, x))
  }

  method TakeUntilSpace(s: seq<byte>, from: nat, end: nat) returns (out: seq<byte>)
    requires from <= end <= |s|
    ensures out == Until(s, from, end, SPACE)
  {
    var i := from;
    while i < end && s[i] != SPACE
      invariant from <= i <= end && RunLength(s, from, end, SPACE) == i - from + RunLength(s, i, end, SPACE)
    {
      i := i + 1;
    }
    out := s[from..i];
  }

  method NameToString(s: seq<byte>) returns (out: Name)
    requires |s| == 11
    ensures out == NameString(s)
  {
    out := TakeUntilSpace(s, 0, 8);
    if s[8] != SPACE {
      var ext := TakeUntilSpace(s, 8, 11);
      out := out + [DOT] + ext;
    }
  }

  method CompareName(fatName: seq<byte>, name: Name) returns (same: bool)
    requires |fatName| == 11
    ensures same == NamesAgree(NameString(fatName), name)
  {
    var fatStr := NameToString(fatName);
    var i := 0;
    while i < |fatStr| && fatStr[i] != 0 && i < |name|
      invariant i <= |fatStr|
      invariant AgreeFrom(fatStr, name, i) == NamesAgree(fatStr, name)
    {
      if Or20(fatStr[i]) != Or20(name[i]) {
        return false;
      }
      i := i + 1;
    }
    same := true;
  }

  method StoreBase(name: Name, fatName: array<byte>) returns (i: nat)
    requires fatName.Length == 11 && forall x :: 0 <= x < 11 ==> fatName[x] == SPACE
    modifies fatName
    ensures i == BaseLength(name)
    ensures forall x :: 0 <= x < 11 ==> fatName[x] == if x < i then Or40(name[x]) else SPACE
  {
    ghost var end := if |name| < 8 then |name| else 8;
    i := 0;
    while i < |name| && name[i] != DOT && i < 8
      invariant i <= end && BaseLength(name) == i + RunLength(name, i, end, DOT)
      invariant forall x :: 0 <= x < 11 ==> fatName[x] == if x < i then Or40(name[x]) else SPACE
    {
      fatName[i] := Or40(name[i]);
      i := i + 1;
    }
  }

  method StringToFatName(name: Name) returns (out: seq<byte>)
    ensures out == FatName(name)
  {
    hide RunLength;
    var fatName := new byte[11](_ => SPACE);
    var i := StoreBase(name, fatName);
    ghost var b := i;
    if i < |name| && name[i] == DOT {
      i := i + 1;
      var j := 8;
      while i < |name| && j < 11
        invariant i <= |name| && 8 <= j <= 11 && i == b + j - 7
        invariant forall x :: 0 <= x < 11 ==> fatName[x] == if x < j then FatNameByte(name, b, x) else SPACE
      {
        fatName[j] := Or40(name[i]);
        i, j := i + 1, j + 1;
      }
    }
    out := fatName[..];
  }

  predicate Bit6(b: byte) { b / 0x40 % 2 == 1 }

  // Byte `i` of the name goes into the 8.3 name: one of the base, or of three behind a dot after it.
  predicate StoredAt(name: Name, i: nat)
  {
    var b := BaseLength(name);
    i < b || (b < |name| && name[b] == DOT && b < i <= b + 3)
  }

  // The 8.3 name of `name` as a string: its base, and its extension if it has one.
  lemma NameRoundTrip(name: Name)
    requires 0 !in name
    ensures var b, fat, t := BaseLength(name), FatName(name), NameString(FatName(name));
      && b <= |t| && (forall i :: 0 <= i < b ==> t[i] == Or40(name[i]))
      && (if b < |name| - 1 && name[b] == DOT
          then |t| == Min4(|name|, b) && t[b] == DOT && forall i :: b < i < |t| ==> t[i] == Or40(name[i])
          else |t| == b)
  {
    hide RunLength;
    var b, fat := BaseLength(name), FatName(name);
    RunIs(fat, 0, 8, b);
    if b < |name| - 1 && name[b] == DOT {
      RunIs(fat, 8, 11, Min4(|name|, b) - b - 1);
    }
  }

  // Where the extension behind a base of length `b` ends.
  function Min4(length: nat, b: nat): nat { if length < b + 4 then length else b + 4 }

  // A created name matches itself exactly if bit 6 is set in all of its bytes that are stored; a
  // digit, for one, is stored as another character.
  lemma FoundAgainIff(name: Name)
    requires name != [] && 0 !in name
    ensures NamesAgree(NameString(FatName(name)), name)
            <==> forall i :: 0 <= i < |name| && StoredAt(name, i) ==> Bit6(name[i])
  {
    hide RunLength, NamesAgree, FatName, NameString, Or40;
    NameRoundTrip(name);
    var b, t := BaseLength(name), NameString(FatName(name));
    forall i | 0 <= i < |name|
      ensures Or40(name[i]) != 0 && (Or20(Or40(name[i])) == Or20(name[i]) <==> Bit6(name[i]))
    {
      BitKept(name[i]);
    }
    assert 0 !in t;
    NamesAgreeIff(t, name);
    if forall i :: 0 <= i < |name| && StoredAt(name, i) ==> Bit6(name[i]) {
      forall x | 0 <= x < |t| && x < |name|
        ensures Or20(t[x]) == Or20(name[x])
      {
        assert x != b ==> StoredAt(name, x);
      }
    }
    forall i | 0 <= i < |name| && StoredAt(name, i)
      ensures i < |t| && t[i] == Or40(name[i])
    {
    }
  }

  lemma BitKept(b: byte)
    ensures Or40(b) != 0 && (Or20(Or40(b)) == Or20(b) <==> Bit6(b))
  {
  }

  // A name whose entry the scan will find: bit 6 in every stored byte, and a first byte that does not
  // mark the entry as deleted.
  predicate Keepable(name: Name)
  {
    && (forall i :: 0 <= i < |name| && StoredAt(name, i) ==> Bit6(name[i]))
    && FatName(name)[0] != DELETED
  }

  predicate Letter(b: byte) { 0x41 <= b <= 0x5A || 0x61 <= b <= 0x7A }

  // Letters and dots, with a letter first.
  predicate LettersAndDot(name: Name) { name != [] && forall i :: 0 <= i < |name| ==> Letter(name[i]) || (name[i] == DOT && i > 0) }

  // Such names are found again: `README`, `kernel.bin`.
  lemma LettersFoundAgain(name: Name)
    requires LettersAndDot(name) && forall i :: BaseLength(name) < i < |name| ==> name[i] != DOT
    ensures Keepable(name) && NamesAgree(NameString(FatName(name)), name)
  {
    hide NamesAgree, NameString;
    assert 0 !in name;
    FoundAgainIff(name);
    FirstStored(name);
    forall i | 0 <= i < |name| && StoredAt(name, i)
      ensures Bit6(name[i])
    {
      assert Letter(name[i]);
    }
  }

  lemma FirstStored(name: Name)
    requires name != [] && name[0] != DOT
    ensures FatName(name)[0] == Or40(name[0])
  {
  }

  lemma StoredNotFree(name: Name)
    ensures FatName(name)[0] != 0
  {
  }

  lemma {:induction false} RunIs(s: seq<byte>, from: nat, end: nat, n: nat)
    requires from <= end <= |s| && n <= end - from && (from + n < end ==> s[from + n] == SPACE)
    requires forall x :: from <= x < from + n ==> s[x] != SPACE
    ensures RunLength(s, from, end, SPACE) == n
    decreases n
  {
    if n > 0 {
      RunIs(s, from + 1, end, n - 1);
    }
  }

  lemma {:induction false} AgreeFromIff(a: Name, b: Name, i: nat)
    requires 0 !in a
    ensures AgreeFrom(a, b, i) <==> forall x :: i <= x < |a| && x < |b| ==> Or20(a[x]) == Or20(b[x])
    decreases |a| - i
  {
    if i < |a| && i < |b| {
      assert a[i] in a;
      AgreeFromIff(a, b, i + 1);
    }
  }

  // The search matches exactly the names that are the same, up to bit 5, as far as both go.
  lemma NamesAgreeIff(a: Name, b: Name)
    requires 0 !in a
    ensures NamesAgree(a, b) <==> forall x :: 0 <= x < |a| && x < |b| ==> Or20(a[x]) == Or20(b[x])
  {
    AgreeFromIff(a, b, 0);
  }

  // ----- the scan -----

  datatype Scan = Stopped | Found(index: nat) | Exhausted
  {
    // The outcome when `n` slots came before.
    function After(n: nat): Scan { if Found? then Found(index + n) else this }
  }

  predicate Hit(s: Slot, name: Name) { Visible(s) && NamesAgree(NameString(s[..11]), name) }

  function SlotAt(s: seq<byte>, i: nat): Slot
    requires 32 * i + 32 <= |s|
  {
    s[32 * i..32 * i + 32]
  }

  // Slots of `s` from number `i` on: the scan stops at a terminator and at the first hit.
  function ScanFrom(s: seq<byte>, name: Name, i: nat): Scan
    decreases |s| - 32 * i
  {
    if 32 * i + 32 > |s| then Exhausted
    else if Terminator(SlotAt(s, i)) then Stopped
    else if Hit(SlotAt(s, i), name) then Found(i)
    else ScanFrom(s, name, i + 1)
  }

  predicate PassedOver(s: seq<byte>, name: Name, i: nat)
    requires 32 * i + 32 <= |s|
  {
    !Terminator(SlotAt(s, i)) && !Hit(SlotAt(s, i), name)
  }

  // What the scan's outcome says: everything before it was passed over.
  lemma {:induction false} ScanMeaning(s: seq<byte>, name: Name, i: nat)
    ensures var r := ScanFrom(s, name, i);
      && (r.Found? ==> r.index >= i && 32 * r.index + 32 <= |s| && Hit(SlotAt(s, r.index), name)
                       && (forall x :: i <= x < r.index ==> PassedOver(s, name, x)))
      && (r.Exhausted? ==> forall x :: i <= x && 32 * x + 32 <= |s| ==> PassedOver(s, name, x))
    decreases |s| - 32 * i
  {
    if 32 * i + 32 <= |s| && PassedOver(s, name, i) {
      ScanMeaning(s, name, i + 1);
    }
  }

  lemma {:induction false} NoHitBefore(s: seq<byte>, name: Name, i: nat, end: nat)
    requires i <= end && 32 * end <= |s| && !ScanFrom(s, name, i).Found?
    requires forall x :: i <= x < end ==> !Terminator(SlotAt(s, x))
    ensures forall x :: i <= x < end ==> PassedOver(s, name, x)
    decreases end - i
  {
    if i < end {
      assert !Terminator(SlotAt(s, i));
      NoHitBefore(s, name, i + 1, end);
    }
  }

  // A slot that hits, behind slots that are passed over, is what the scan finds.
  lemma {:induction false} ScanFinds(s: seq<byte>, name: Name, i: nat, hit: nat)
    requires i <= hit && 32 * hit + 32 <= |s| && Hit(SlotAt(s, hit), name)
    requires forall x :: i <= x < hit ==> PassedOver(s, name, x)
    ensures ScanFrom(s, name, i) == Found(hit)
    decreases hit - i
  {
    if i < hit {
      assert PassedOver(s, name, i);
      ScanFinds(s, name, i + 1, hit);
    }
  }

  // Scanning a directory cluster by cluster is scanning its content.
  lemma {:induction false} ScanConcat(a: seq<byte>, b: seq<byte>, name: Name, i: nat, n: nat)
    requires |a| == 32 * n && i <= n
    ensures ScanFrom(a + b, name, i)
            == if ScanFrom(a, name, i).Exhausted? then ScanFrom(b, name, 0).After(n) else ScanFrom(a, name, i)
    decreases n - i
  {
    if i < n {
      assert SlotAt(a + b, i) == SlotAt(a, i);
      ScanConcat(a, b, name, i + 1, n);
    } else {
      ScanShift(a, b, name, 0, n);
    }
  }

  lemma {:induction false} ScanShift(a: seq<byte>, b: seq<byte>, name: Name, i: nat, n: nat)
    requires |a| == 32 * n
    ensures ScanFrom(a + b, name, n + i) == ScanFrom(b, name, i).After(n)
    decreases |b| - 32 * i
  {
    if 32 * i + 32 <= |b| {
      assert SlotAt(a + b, n + i) == SlotAt(b, i);
      ScanShift(a, b, name, i + 1, n);
    }
  }

  // The entry loop of `fat32_find_entry` and `fat32_delete` over one cluster in the buffer.
  method ScanCluster(data: array<byte>, bytesPerCluster: nat, name: Name) returns (r: Scan)
    requires bytesPerCluster % 32 == 0 && bytesPerCluster <= data.Length
    ensures r == ScanFrom(data[..bytesPerCluster], name, 0)
    ensures r.Found? ==> 32 * r.index + 32 <= bytesPerCluster
  {
    ghost var s := data[..bytesPerCluster];
    ScanMeaning(s, name, 0);
    var i := 0;
    while i < bytesPerCluster / 32
      invariant 0 <= i <= bytesPerCluster / 32
      invariant ScanFrom(s, name, i) == ScanFrom(s, name, 0)
    {
      var slot := data[32 * i..32 * i + 32];
      assert slot == SlotAt(s, i);
      if slot[0] == 0 {
        return Stopped;
      }
      if slot[0] != DELETED && slot[11] % 0x10 != ATTR_LONG_NAME {
        var same := CompareName(slot[..11], name);
        if same {
          return Found(i);
        }
      }
      i := i + 1;
    }
    r := Exhausted;
  }
}
