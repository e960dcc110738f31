// The abstract level of the volume: the FAT array stands for a set of disjoint, acyclic cluster
// chains. The three updates the file system makes (start a chain, extend one, free one) act on
// that set as one would expect, and no cluster is ever lost or gained.
module FatChains {
  import opened FatLayout

  type Chain = seq<nat>

  // Neither free (0) nor bad (0FFFFFF7).
  predicate Used(v: nat) { v != 0x0000_0000 && v != 0x0FFF_FFF7 }

  predicate Distinct(s: seq<nat>) { forall i, j :: 0 <= i < j < |s| ==> s[i] != s[j] }

  // Clusters each of whose entries names the next, the last an end mark (0FFFFFF8 and above).
  predicate IsChain(fat: Fat, ch: Chain)
  {
    && ch != []
    && Distinct(ch)
    && (forall i :: 0 <= i < |ch| ==> 2 <= ch[i] < |fat|)
    && (forall i :: 0 <= i < |ch| - 1 ==> fat[ch[i]] == ch[i + 1])
    && fat[ch[|ch| - 1]] >= 0x0FFF_FFF8
  }

  predicate Disjoint(a: Chain, b: Chain) { forall c :: c in a ==> c !in b }

  // `cs` is what `fat` stands for: chains that share no cluster and together hold every used one.
  ghost predicate Abstracts(fat: Fat, cs: set<Chain>)
  {
    && (forall ch :: ch in cs ==> IsChain(fat, ch))
    && (forall a, b :: a in cs && b in cs && a != b ==> Disjoint(a, b))
    && (forall c :: 2 <= c < |fat| && Used(fat[c]) ==> exists ch :: ch in cs && c in ch)
  }

  lemma ChainMembersUsed(fat: Fat, ch: Chain, c: nat)
    requires IsChain(fat, ch) && c in ch
    ensures 2 <= c < |fat| && Used(fat[c])
  {
    var i :| 0 <= i < |ch| && ch[i] == c;
    if i < |ch| - 1 {
      assert fat[ch[i]] == ch[i + 1];
    }
  }

  // Only the entries of a chain decide whether it is one.
  lemma ChainFrame(fat: Fat, fat': Fat, ch: Chain)
    requires IsChain(fat, ch) && |fat'| == |fat|
    requires forall c :: c in ch ==> 2 <= c < |fat| && fat'[c] == fat[c]
    ensures IsChain(fat', ch)
  {
    assert forall i :: 0 <= i < |ch| ==> ch[i] in ch;
  }

  // ----- the three updates -----

  lemma StartChain(fat: Fat, cs: set<Chain>, c: nat)
    requires Abstracts(fat, cs) && 2 <= c < |fat| && fat[c] == FREE
    ensures forall ch :: ch in cs ==> c !in ch
    ensures Abstracts(fat[c := END_OF_CHAIN], cs + {[c]})
  {
    var fat' := fat[c := END_OF_CHAIN];
    forall ch | ch in cs
      ensures c !in ch && IsChain(fat', ch)
    {
      FreeOffChain(fat, ch, c);
      ChainFrame(fat, fat', ch);
    }
    forall x | 2 <= x < |fat'| && Used(fat'[x])
      ensures exists ch :: ch in cs + {[c]} && x in ch
    {
      if x == c {
        assert x in [c];
      } else {
        var ch :| ch in cs && x in ch;
        assert ch in cs + {[c]};
      }
    }
  }

  lemma FreeOffChain(fat: Fat, ch: Chain, c: nat)
    requires IsChain(fat, ch) && 2 <= c < |fat| && fat[c] == FREE
    ensures c !in ch
  {
    if c in ch {
      ChainMembersUsed(fat, ch, c);
    }
  }

  function Linked(fat: Fat, tail: nat, c: nat): Fat
    requires tail < |fat| && c < |fat|
  {
    fat[tail := c][c := END_OF_CHAIN]
  }

  lemma ExtendedIsChain(fat: Fat, ch: Chain, c: nat)
    requires IsChain(fat, ch) && 2 <= c < |fat| && fat[c] == FREE
    ensures c !in ch && IsChain(Linked(fat, ch[|ch| - 1], c), ch + [c])
  {
    FreeOffChain(fat, ch, c);
    var tail := ch[|ch| - 1];
    var fat', ch' := Linked(fat, tail, c), ch + [c];
    forall i | 0 <= i < |ch'| - 1
      ensures fat'[ch'[i]] == ch'[i + 1]
    {
      if i < |ch| - 1 {
        assert ch[i] != tail;
      }
    }
  }

  // Extending one chain leaves the others as they were.
  lemma ExtendOther(fat: Fat, ch: Chain, c: nat, b: Chain)
    requires IsChain(fat, ch) && IsChain(fat, b) && Disjoint(b, ch) && 2 <= c < |fat| && fat[c] == FREE
    ensures IsChain(Linked(fat, ch[|ch| - 1], c), b) && Disjoint(b, ch + [c]) && Disjoint(ch + [c], b)
  {
    FreeOffChain(fat, b, c);
    var tail := ch[|ch| - 1];
    assert tail in ch;
    assert forall i :: 0 <= i < |b| ==> b[i] in b;
    ChainFrame(fat, Linked(fat, tail, c), b);
  }

  lemma ExtendChain(fat: Fat, cs: set<Chain>, ch: Chain, c: nat)
    requires Abstracts(fat, cs) && ch in cs && 2 <= c < |fat| && fat[c] == FREE
    ensures ch != []
    ensures Abstracts(Linked(fat, ch[|ch| - 1], c), cs - {ch} + {ch + [c]})
  {
    var ch' := ch + [c];
    assert ch[|ch| - 1] in ch;
    var fat', cs' := Linked(fat, ch[|ch| - 1], c), cs - {ch} + {ch'};
    ExtendedIsChain(fat, ch, c);
    hide IsChain, Disjoint;
    forall b | b in cs - {ch}
      ensures IsChain(fat', b) && Disjoint(b, ch') && Disjoint(ch', b)
    {
      ExtendOther(fat, ch, c, b);
    }
    forall x | 2 <= x < |fat'| && Used(fat'[x])
      ensures exists b :: b in cs' && x in b
    {
      if x in ch' {
        assert ch' in cs';
      } else {
        assert fat'[x] == fat[x];
        var b :| b in cs && x in b;
        assert b in cs';
      }
    }
  }

  // The same, for a chain `ch` that took the place of `ch0` in `cs`.
  lemma ExtendReplaced(fat: Fat, cs: set<Chain>, ch0: Chain, ch: Chain, c: nat)
    requires Abstracts(fat, cs - {ch0} + {ch}) && ch !in cs - {ch0} && 2 <= c < |fat| && fat[c] == FREE
    ensures ch != [] && c !in ch && ch + [c] !in cs - {ch0}
    ensures Abstracts(Linked(fat, ch[|ch| - 1], c), cs - {ch0} + {ch + [c]})
  {
    var mid := cs - {ch0} + {ch};
    ExtendChain(fat, mid, ch, c);
    FreeOffChain(fat, ch, c);
    if ch + [c] in mid {
      FreeOffChain(fat, ch + [c], c);
    }
    assert mid - {ch} == cs - {ch0};
  }

  function Freed(fat: Fat, ch: Chain): (fat': Fat)
    ensures |fat'| == |fat|
  {
    seq(|fat|, c requires 0 <= c < |fat| => if c in ch then FREE else fat[c])
  }

  lemma FreeChain(fat: Fat, cs: set<Chain>, ch: Chain)
    requires Abstracts(fat, cs) && ch in cs
    ensures Abstracts(Freed(fat, ch), cs - {ch})
  {
    var fat', cs' := Freed(fat, ch), cs - {ch};
    forall b | b in cs'
      ensures IsChain(fat', b)
    {
      assert Disjoint(b, ch);
      assert forall c :: c in b ==> 2 <= c < |fat|;
      ChainFrame(fat, fat', b);
    }
    forall x | 2 <= x < |fat'| && Used(fat'[x])
      ensures exists b :: b in cs' && x in b
    {
      var b :| b in cs && x in b;
      assert b in cs';
    }
  }

  // ----- the abstraction is a function of the FAT -----

  lemma SharedClusterSameChain(cs: set<Chain>, a: Chain, b: Chain, c: nat)
    requires forall x, y :: x in cs && y in cs && x != y ==> Disjoint(x, y)
    requires a in cs && b in cs && c in a && c in b
    ensures a == b
  {
    assert a != b ==> Disjoint(a, b);
  }

  // A chain's head has no predecessor, so any other abstraction has a chain starting there.
  lemma HeadIsHead(fat: Fat, xs: set<Chain>, ys: set<Chain>, a: Chain, b: Chain)
    requires Abstracts(fat, xs) && Abstracts(fat, ys) && a in xs && b in ys && a != [] && a[0] in b
    ensures b[0] == a[0]
  {
    var j :| 0 <= j < |b| && b[j] == a[0];
    if j > 0 {
      assert fat[b[j - 1]] == b[j];
      ChainMembersUsed(fat, b, b[j - 1]);
      var a' :| a' in xs && b[j - 1] in a';
      var p :| 0 <= p < |a'| && a'[p] == b[j - 1];
      assert a'[p + 1] == a[0];
      SharedClusterSameChain(xs, a, a', a[0]);
      assert false;
    }
  }

  lemma {:induction false} SameHeadAgree(fat: Fat, a: Chain, b: Chain, i: nat)
    requires IsChain(fat, a) && IsChain(fat, b) && a[0] == b[0] && i < |a|
    ensures i < |b| && a[i] == b[i]
  {
    if i > 0 {
      SameHeadAgree(fat, a, b, i - 1);
      assert fat[a[i - 1]] == a[i] < |fat|;
    }
  }

  lemma SameHeadSameChain(fat: Fat, a: Chain, b: Chain)
    requires IsChain(fat, a) && IsChain(fat, b) && a[0] == b[0]
    ensures a == b
  {
    SameHeadAgree(fat, a, b, |a| - 1);
    SameHeadAgree(fat, b, a, |b| - 1);
    forall i | 0 <= i < |a|
      ensures a[i] == b[i]
    {
      SameHeadAgree(fat, a, b, i);
    }
  }

  lemma AbstractionIncluded(fat: Fat, xs: set<Chain>, ys: set<Chain>)
    requires Abstracts(fat, xs) && Abstracts(fat, ys)
    ensures xs <= ys
  {
    forall a | a in xs
      ensures a in ys
    {
      ChainMembersUsed(fat, a, a[0]);
      var b :| b in ys && a[0] in b;
      HeadIsHead(fat, xs, ys, a, b);
      SameHeadSameChain(fat, a, b);
    }
  }

  lemma AbstractionUnique(fat: Fat, xs: set<Chain>, ys: set<Chain>)
    requires Abstracts(fat, xs) && Abstracts(fat, ys)
    ensures xs == ys
  {
    AbstractionIncluded(fat, xs, ys);
    AbstractionIncluded(fat, ys, xs);
  }

  // ----- conservation -----

  function Range(n: nat): (s: set<nat>)
    ensures |s| == n && (forall c :: c in s <==> 2 <= c < n + 2)
  {
    if n == 0 then {} else Range(n - 1) + {n + 1}
  }

  function Members(ch: Chain): set<nat> { set c | c in ch }

  lemma {:induction false} MembersCount(ch: Chain)
    requires Distinct(ch)
    ensures |Members(ch)| == |ch|
  {
    if ch == [] {
      assert Members(ch) == {};
    } else {
      var last := ch[|ch| - 1];
      MembersCount(ch[..|ch| - 1]);
      assert Members(ch) == Members(ch[..|ch| - 1]) + {last};
    }
  }

  function FreeClusters(fat: Fat): set<nat> { set c | 2 <= c < |fat| && fat[c] == 0x0000_0000 }

  function BadClusters(fat: Fat): set<nat> { set c | 2 <= c < |fat| && fat[c] == 0x0FFF_FFF7 }

  function ChainClusters(cs: set<Chain>): set<nat> { set ch, c | ch in cs && c in ch :: c }

  ghost function TotalLength(cs: set<Chain>): nat
  {
    if cs == {} then 0 else var ch :| ch in cs; |ch| + TotalLength(cs - {ch})
  }

  lemma ClustersSplit(cs: set<Chain>, ch: Chain)
    requires ch in cs && forall b :: b in cs && b != ch ==> Disjoint(ch, b)
    ensures ChainClusters(cs) == Members(ch) + ChainClusters(cs - {ch})
    ensures Members(ch) !! ChainClusters(cs - {ch})
  {
    forall c | c in ChainClusters(cs)
      ensures c in Members(ch) + ChainClusters(cs - {ch})
    {
      var b :| b in cs && c in b;
      assert b == ch || b in cs - {ch};
    }
  }

  lemma {:induction false} TotalLengthCounts(fat: Fat, cs: set<Chain>)
    requires forall ch :: ch in cs ==> IsChain(fat, ch)
    requires forall a, b :: a in cs && b in cs && a != b ==> Disjoint(a, b)
    ensures TotalLength(cs) == |ChainClusters(cs)|
  {
    if cs == {} {
      assert ChainClusters(cs) == {};
    } else {
      var ch :| ch in cs && TotalLength(cs) == |ch| + TotalLength(cs - {ch});
      TotalLengthCounts(fat, cs - {ch});
      MembersCount(ch);
      ClustersSplit(cs, ch);
    }
  }

  lemma OnChainUsed(fat: Fat, cs: set<Chain>, c: nat)
    requires Abstracts(fat, cs) && 2 <= c < |fat|
    ensures c in ChainClusters(cs) <==> Used(fat[c])
  {
    if c in ChainClusters(cs) {
      var ch :| ch in cs && c in ch;
      ChainMembersUsed(fat, ch, c);
    }
  }

  lemma OnChainInside(fat: Fat, cs: set<Chain>)
    requires Abstracts(fat, cs)
    ensures forall c :: c in ChainClusters(cs) ==> 2 <= c < |fat|
  {
  }

  // Every data cluster is free, marked bad, or on exactly one chain.
  lemma Conservation(fat: Fat, cs: set<Chain>)
    requires Abstracts(fat, cs) && |fat| >= 2
    ensures |FreeClusters(fat)| + |BadClusters(fat)| + TotalLength(cs) == |fat| - 2
  {
    hide ChainClusters, IsChain;
    var onChain := ChainClusters(cs);
    TotalLengthCounts(fat, cs);
    OnChainInside(fat, cs);
    forall c | 2 <= c < |fat|
      ensures c in onChain <==> Used(fat[c])
    {
      OnChainUsed(fat, cs, c);
    }
    assert Range(|fat| - 2) == FreeClusters(fat) + BadClusters(fat) + onChain;
    assert FreeClusters(fat) !! BadClusters(fat) && (FreeClusters(fat) + BadClusters(fat)) !! onChain;
  }

  // A chain that grows takes as many free clusters as it gets longer.
  lemma FreeTaken(was: Fat, now: Fat, ch0: Chain, ch: Chain)
    requires |now| == |was| && IsChain(was, ch0) && IsChain(now, ch) && ch0 <= ch
    requires forall i :: |ch0| <= i < |ch| ==> was[ch[i]] == FREE
    requires forall c :: 2 <= c < |was| && c !in ch ==> now[c] == was[c]
    ensures |ch| + |FreeClusters(now)| == |ch0| + |FreeClusters(was)|
  {
    var added := ch[|ch0|..];
    forall c | 2 <= c < |was|
      ensures was[c] == FREE <==> now[c] == FREE || c in added
      ensures now[c] == FREE ==> c !in added
    {
      TakenOrNot(was, now, ch0, ch, c);
    }
    MembersCount(added);
    assert FreeClusters(was) == FreeClusters(now) + Members(added);
    assert FreeClusters(now) !! Members(added);
  }

  lemma TakenOrNot(was: Fat, now: Fat, ch0: Chain, ch: Chain, c: nat)
    requires |now| == |was| && IsChain(was, ch0) && IsChain(now, ch) && ch0 <= ch && 2 <= c < |was|
    requires forall i :: |ch0| <= i < |ch| ==> was[ch[i]] == FREE
    requires c !in ch ==> now[c] == was[c]
    ensures was[c] == FREE <==> now[c] == FREE || c in ch[|ch0|..]
    ensures now[c] == FREE ==> c !in ch[|ch0|..]
  {
    assert c in ch <==> c in ch0 || c in ch[|ch0|..] by {
      assert ch == ch0 + ch[|ch0|..];
    }
    if c in ch0 {
      ChainMembersUsed(was, ch0, c);
    }
    if c in ch {
      ChainMembersUsed(now, ch, c);
    }
    assert c in ch[|ch0|..] ==> exists i :: |ch0| <= i < |ch| && ch[i] == c;
  }
}
