// The entry-by-entry description of a well-formed FAT, and the proof that it says exactly that the
// FAT stands for a set of disjoint acyclic chains.
module FatWellFormed {
  import opened FatLayout
  import opened FatChains

  // Entry `c` holds the number of a next cluster.
  predicate Links(fat: Fat, c: int) { 2 <= c < |fat| && Used(fat[c]) && fat[c] < END_OF_CHAIN }

  // Used entries name an in-range used cluster or end a chain, no cluster has two predecessors, and
  // `rank` falls along every link, so there is no cycle.
  ghost predicate RankedWellFormed(fat: Fat, rank: seq<nat>)
  {
    && |rank| == |fat|
    && (forall c :: Links(fat, c) ==> 2 <= fat[c] < |fat| && Used(fat[fat[c]]))
    && (forall a, b :: Links(fat, a) && Links(fat, b) && a != b ==> fat[a] != fat[b])
    && (forall c :: Links(fat, c) ==> rank[fat[c]] < rank[c])
  }

  ghost predicate WellFormed(fat: Fat) { exists rank :: RankedWellFormed(fat, rank) }

  // ----- from the local description to the chains -----

  // The clusters met from `c` on.
  ghost function Follow(fat: Fat, rank: seq<nat>, c: nat): (ch: Chain)
    requires RankedWellFormed(fat, rank) && 2 <= c < |fat| && Used(fat[c])
    ensures IsChain(fat, ch) && ch[0] == c
    ensures forall i :: 0 <= i < |ch| ==> rank[ch[i]] <= rank[c]
    decreases rank[c]
  {
    if Links(fat, c) then [c] + Follow(fat, rank, fat[c]) else [c]
  }

  ghost predicate IsHead(fat: Fat, h: nat)
  {
    2 <= h < |fat| && Used(fat[h]) && forall p :: Links(fat, p) ==> fat[p] != h
  }

  function Max(s: seq<nat>): (m: nat)
    ensures forall i :: 0 <= i < |s| ==> s[i] <= m
  {
    if s == [] then 0
    else
      var m := Max(s[..|s| - 1]);
      if s[|s| - 1] > m then s[|s| - 1] else m
  }

  lemma {:induction false} ReachedFromHead(fat: Fat, rank: seq<nat>, d: nat, c: nat) returns (h: nat)
    requires RankedWellFormed(fat, rank) && 2 <= d < |fat| && Used(fat[d]) && c in Follow(fat, rank, d)
    ensures IsHead(fat, h) && c in Follow(fat, rank, h)
    decreases Max(rank) - rank[d]
  {
    if IsHead(fat, d) {
      h := d;
    } else {
      var p: nat :| Links(fat, p) && fat[p] == d;
      assert Follow(fat, rank, p) == [p] + Follow(fat, rank, d);
      h := ReachedFromHead(fat, rank, p, c);
    }
  }

  lemma {:induction false} HeadsApart(fat: Fat, rank: seq<nat>, a: Chain, b: Chain, i: nat, j: nat)
    requires RankedWellFormed(fat, rank) && IsChain(fat, a) && IsChain(fat, b)
    requires IsHead(fat, a[0]) && IsHead(fat, b[0]) && i < |a| && j < |b| && a[i] == b[j]
    ensures a[0] == b[0]
  {
    if i > 0 {
      ChainMembersUsed(fat, a, a[i - 1]);
      assert Links(fat, a[i - 1]) && fat[a[i - 1]] == a[i];
    }
    if j > 0 {
      ChainMembersUsed(fat, b, b[j - 1]);
      assert Links(fat, b[j - 1]) && fat[b[j - 1]] == b[j];
    }
    if i > 0 && j > 0 {
      HeadsApart(fat, rank, a, b, i - 1, j - 1);
    }
  }

  ghost function AllChains(fat: Fat, rank: seq<nat>): set<Chain>
    requires RankedWellFormed(fat, rank)
  {
    set h | 2 <= h < |fat| && IsHead(fat, h) :: Follow(fat, rank, h)
  }

  lemma RankedAbstracts(fat: Fat, rank: seq<nat>)
    requires RankedWellFormed(fat, rank)
    ensures Abstracts(fat, AllChains(fat, rank))
  {
    var cs := AllChains(fat, rank);
    forall a, b | a in cs && b in cs && a != b
      ensures Disjoint(a, b)
    {
      if c :| c in a && c in b {
        var i :| 0 <= i < |a| && a[i] == c;
        var j :| 0 <= j < |b| && b[j] == c;
        HeadsApart(fat, rank, a, b, i, j);
        SameHeadSameChain(fat, a, b);
      }
    }
    forall c | 2 <= c < |fat| && Used(fat[c])
      ensures exists ch :: ch in cs && c in ch
    {
      assert Follow(fat, rank, c)[0] == c;
      var h := ReachedFromHead(fat, rank, c, c);
      assert Follow(fat, rank, h) in cs;
    }
  }

  // ----- from the chains to the local description -----

  ghost predicate At(cs: set<Chain>, c: nat, ch: Chain, i: nat) { ch in cs && i < |ch| && ch[i] == c }

  ghost function Place(fat: Fat, cs: set<Chain>, c: nat): (p: (Chain, nat))
    requires Abstracts(fat, cs) && 2 <= c < |fat| && Used(fat[c])
    ensures At(cs, c, p.0, p.1)
  {
    var ch :| ch in cs && c in ch;
    var i :| 0 <= i < |ch| && ch[i] == c;
    (ch, i)
  }

  // How many clusters of its chain lie from a used cluster `c` on.
  ghost function Remaining(fat: Fat, cs: set<Chain>, c: nat): nat
    requires Abstracts(fat, cs) && 2 <= c < |fat| && Used(fat[c])
  {
    var p := Place(fat, cs, c);
    |p.0| - p.1
  }

  lemma RemainingAt(fat: Fat, cs: set<Chain>, c: nat, ch: Chain, i: nat)
    requires Abstracts(fat, cs) && At(cs, c, ch, i)
    ensures 2 <= c < |fat| && Used(fat[c]) && Remaining(fat, cs, c) == |ch| - i
  {
    ChainMembersUsed(fat, ch, c);
    SharedClusterSameChain(cs, ch, Place(fat, cs, c).0, c);
    assert IsChain(fat, ch);
  }

  lemma LinkAlongChain(fat: Fat, cs: set<Chain>, c: nat) returns (ch: Chain, i: nat)
    requires Abstracts(fat, cs) && Links(fat, c)
    ensures At(cs, c, ch, i) && At(cs, fat[c], ch, i + 1)
    ensures 2 <= fat[c] < |fat| && Used(fat[fat[c]])
    ensures Remaining(fat, cs, fat[c]) < Remaining(fat, cs, c)
  {
    ch :| ch in cs && c in ch;
    i :| 0 <= i < |ch| && ch[i] == c;
    assert IsChain(fat, ch);
    assert fat[ch[i]] == ch[i + 1];
    RemainingAt(fat, cs, c, ch, i);
    RemainingAt(fat, cs, fat[c], ch, i + 1);
  }

  lemma AbstractsRanked(fat: Fat, cs: set<Chain>)
    requires Abstracts(fat, cs)
    ensures WellFormed(fat)
  {
    hide Remaining, At;
    var rank := seq(|fat|, c requires 0 <= c < |fat| =>
      if 2 <= c && Used(fat[c]) then Remaining(fat, cs, c) else 0);
    forall c | Links(fat, c)
      ensures 2 <= fat[c] < |fat| && Used(fat[fat[c]]) && rank[fat[c]] < rank[c]
    {
      var _, _ := LinkAlongChain(fat, cs, c);
    }
    forall a, b | Links(fat, a) && Links(fat, b) && fat[a] == fat[b]
      ensures a == b
    {
      var x, i := LinkAlongChain(fat, cs, a);
      var y, j := LinkAlongChain(fat, cs, b);
      SharedClusterSameChain(cs, x, y, fat[a]);
    }
    assert RankedWellFormed(fat, rank);
  }

  // A FAT is well formed, entry by entry, exactly when it stands for a set of disjoint chains.
  lemma WellFormedIffChains(fat: Fat)
    ensures WellFormed(fat) <==> exists cs :: Abstracts(fat, cs)
  {
    if WellFormed(fat) {
      var rank :| RankedWellFormed(fat, rank);
      RankedAbstracts(fat, rank);
    }
    if cs :| Abstracts(fat, cs) {
      AbstractsRanked(fat, cs);
    }
  }
}
