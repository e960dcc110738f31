// The variables of the script language: the table of names and values, and the substitution of
// values into text.
module LshVars {
  import opened CString

  const MAX_VARS: nat := 64
  const NAME_SIZE: nat := 32
  const VALUE_SIZE: nat := 256

  datatype Var = Var(name: string, value: string)
  type Store = seq<Var>

  // ----- the table -----

  // The first entry from `i` on of that name.
  function IndexFrom(st: Store, name: string, i: nat): (r: int)
    requires i <= |st|
    ensures r < 0 ==> r == -1 && forall k :: i <= k < |st| ==> st[k].name != name
    ensures r >= 0 ==> i <= r < |st| && st[r].name == name && forall k :: i <= k < r ==> st[k].name != name
    decreases |st| - i
  {
    if i == |st| then -1 else if st[i].name == name then i else IndexFrom(st, name, i + 1)
  }

  function Value(st: Store, name: string): string
  {
    var i := IndexFrom(st, name, 0);
    if i >= 0 then st[i].value else ""
  }

  function Assign(st: Store, name: string, value: string): Store
  {
    var i := IndexFrom(st, name, 0);
    if i >= 0 then st[i := Var(name, Truncated(value, VALUE_SIZE))]
    else if |st| < MAX_VARS then st + [Var(Truncated(name, NAME_SIZE), Truncated(value, VALUE_SIZE))]
    else st
  }

  // What every script keeps: distinct names, and everything within its buffer.
  ghost predicate Sound(st: Store)
  {
    && |st| <= MAX_VARS
    && (forall i :: 0 <= i < |st| ==> |st[i].name| < NAME_SIZE && |st[i].value| < VALUE_SIZE)
    && (forall i, j :: 0 <= i < j < |st| ==> st[i].name != st[j].name)
  }

  lemma AssignSound(st: Store, name: string, value: string)
    requires Sound(st) && |name| < NAME_SIZE
    ensures Sound(Assign(st, name, value))
  {
  }

  // What an assignment is for: the name then has the value, and every other name what it had.
  lemma AssignReads(st: Store, name: string, value: string, other: string)
    requires |name| < NAME_SIZE && |value| < VALUE_SIZE
    requires IndexFrom(st, name, 0) >= 0 || |st| < MAX_VARS
    ensures Value(Assign(st, name, value), name) == value
    ensures other != name ==> Value(Assign(st, name, value), other) == Value(st, other)
  {
    hide IndexFrom, Truncated;
    var st' := Assign(st, name, value);
    var i := IndexFrom(st, name, 0);
    var n := if i >= 0 then i else |st|;
    assert Truncated(value, VALUE_SIZE) == value && Truncated(name, NAME_SIZE) == name by { Untouched(name, value); }
    assert |st'| == (if i >= 0 then |st| else |st| + 1) && st'[n] == Var(name, value);
    assert forall j :: 0 <= j < |st| && j != n ==> st'[j] == st[j];
    SameLookup(st, st', n, other);
  }

  lemma Untouched(name: string, value: string)
    requires |name| < NAME_SIZE && |value| < VALUE_SIZE
    ensures Truncated(value, VALUE_SIZE) == value && Truncated(name, NAME_SIZE) == name
  {
  }

  // A table that differs only in entry `n`, which has neither before nor after the name sought.
  lemma SameLookup(st: Store, st': Store, n: nat, other: string)
    requires n <= |st| <= |st'| <= |st| + 1 && n < |st'| && (|st'| > |st| ==> n == |st|)
    requires (n < |st| ==> st[n].name == st'[n].name)
    requires forall j :: 0 <= j < |st| && j != n ==> st'[j] == st[j]
    ensures other != st'[n].name ==> Value(st', other) == Value(st, other)
  {
    hide IndexFrom;
    var k, k' := IndexFrom(st, other, 0), IndexFrom(st', other, 0);
  }

  // ----- the table as a map -----

  datatype Assignment = Set(name: string, value: string)

  function Run(list: seq<Assignment>): Store
  {
    if list == [] then []
    else
      var last := list[|list| - 1];
      Assign(Run(list[..|list| - 1]), last.name, last.value)
  }

  // The names assigned to, in the order in which they first appear.
  function Names(list: seq<Assignment>): seq<string>
  {
    if list == [] then []
    else
      var names := Names(list[..|list| - 1]);
      var last := list[|list| - 1].name;
      if last in names then names else names + [last]
  }

  function LastValue(list: seq<Assignment>, name: string): string
  {
    if list == [] then ""
    else if list[|list| - 1].name == name then list[|list| - 1].value
    else LastValue(list[..|list| - 1], name)
  }

  function Kept(list: seq<Assignment>): (r: seq<string>)
  {
    var names := Names(list);
    if |names| <= 64 then names else names[..64]
  }

  lemma NamesDistinct(list: seq<Assignment>)
    ensures forall i, j :: 0 <= i < j < |Names(list)| ==> Names(list)[i] != Names(list)[j]
  {
  }

  // Any run of assignments leaves exactly the first 64 names, each with the last value given to it,
  // cut to 255 characters.
  lemma {:induction false} StoreIsMap(list: seq<Assignment>)
    requires forall a :: a in list ==> |a.name| < NAME_SIZE
    ensures |Run(list)| == |Kept(list)|
    ensures forall i :: 0 <= i < |Kept(list)| ==>
      Run(list)[i] == Var(Kept(list)[i], Truncated(LastValue(list, Kept(list)[i]), 256))
  {
    if list != [] {
      var rest, last := list[..|list| - 1], list[|list| - 1];
      StoreIsMap(rest);
      NamesDistinct(rest);
      var st, i := Run(rest), IndexFrom(Run(rest), last.name, 0);
      if i >= 0 {
        assert Names(rest)[i] == last.name;
      } else {
        forall k | 0 <= k < |Kept(rest)|
          ensures Kept(rest)[k] != last.name
        {
          assert st[k].name == Kept(rest)[k];
        }
      }
    }
  }

  // So looking up a name gives its last value, or nothing if it came after 64 others.
  lemma LookupLastWrite(list: seq<Assignment>, name: string)
    requires forall a :: a in list ==> |a.name| < NAME_SIZE
    ensures Value(Run(list), name)
            == if name in Kept(list) then Truncated(LastValue(list, name), 256) else ""
  {
    StoreIsMap(list);
    NamesDistinct(list);
    var st := Run(list);
    if name in Kept(list) {
      var k :| 0 <= k < |Kept(list)| && Kept(list)[k] == name;
      assert st[k].name == name;
    }
  }

  // ----- substitution -----

  predicate IsName(c: char) { 'a' <= c <= 'z' || 'A' <= c <= 'Z' || '0' <= c <= '9' || c == '_' }

  // They are these 63.
  lemma NameCharacters(c: char)
    ensures IsName(c) <==>
      || c in "abcdefghijklm" || c in "nopqrstuvwxyz" || c in "ABCDEFGHIJKLM" || c in "NOPQRSTUVWXYZ"
      || c in "0123456789" || c == '_'
  {
    InRow(c, "abcdefghijklm");
    InRow(c, "nopqrstuvwxyz");
    InRow(c, "ABCDEFGHIJKLM");
    InRow(c, "NOPQRSTUVWXYZ");
    InRow(c, "0123456789");
  }

  // Characters in a row.
  lemma InRow(c: char, s: string)
    requires s != "" && forall k :: 0 <= k < |s| ==> s[k] as int == s[0] as int + k
    ensures c in s <==> s[0] <= c <= s[|s| - 1]
  {
    if s[0] <= c <= s[|s| - 1] {
      assert s[c as int - s[0] as int] == c;
    }
  }

  // How many of the first characters of `s`, at most `limit`, are name characters.
  function NameRun(s: string, limit: nat): (n: nat)
    ensures n <= |s| && n <= limit && forall k :: 0 <= k < n ==> IsName(s[k])
    ensures n == limit || n == |s| || !IsName(s[n])
  {
    if limit == 0 || s == "" || !IsName(s[0]) then 0 else 1 + NameRun(s[1..], limit - 1)
  }

  // How many of the first characters of `s`, at most `limit`, come before a closing brace.
  function BraceRun(s: string, limit: nat): (n: nat)
    ensures n <= |s| && n <= limit && forall k :: 0 <= k < n ==> s[k] != '}'
    ensures n == limit || n == |s| || s[n] == '}'
  {
    if limit == 0 || s == "" || s[0] == '}' then 0 else 1 + BraceRun(s[1..], limit - 1)
  }

  // What is left of `s` without its first `n` characters.
  function Drop(s: string, n: nat): string { if n <= |s| then s[n..] else "" }

  // What a `${` leaves to scan, `s` being the text after it: the name, the brace if there is one, and
  // one character more.
  function AfterBrace(s: string): (r: string)
    ensures |r| <= |s|
  {
    var n := BraceRun(s, NAME_SIZE - 1);
    Drop(s, n + if n < |s| && s[n] == '}' then 2 else 1)
  }

  // The text `expand_variables` builds, with no bound on its length.
  function Expanded(st: Store, s: string): string
    decreases |s|
  {
    if s == "" then ""
    else if s[0] != '$' then [s[0]] + Expanded(st, s[1..])
    else if "${" <= s then
      Value(st, s[2..][..BraceRun(s[2..], NAME_SIZE - 1)]) + Expanded(st, AfterBrace(s[2..]))
    else
      var n := NameRun(s[1..], NAME_SIZE - 1);
      Value(st, s[1..][..n]) + Expanded(st, s[1..][n..])
  }

  // ----- what substitution means -----

  // Text as its author sees it: characters and references to variables.
  datatype Piece = Lit(c: char) | Ref(name: string)

  function Shown(piece: Piece): string { match piece case Lit(c) => [c] case Ref(n) => "$" + n }

  function Text(p: seq<Piece>): string { if p == [] then "" else Shown(p[0]) + Text(p[1..]) }

  function Meaning(st: Store, p: seq<Piece>): string
  {
    if p == [] then ""
    else (match p[0] case Lit(c) => [c] case Ref(n) => Value(st, n)) + Meaning(st, p[1..])
  }

  // Characters stand for themselves, and a reference is all the name characters after the dollar, at
  // most 31 of them, with no brace.
  predicate Readable(p: seq<Piece>)
  {
    p != [] ==> Fits(p[0], Text(p[1..])) && Readable(p[1..])
  }

  predicate Fits(piece: Piece, rest: string)
  {
    match piece
    case Lit(c) => c != '$'
    case Ref(n) =>
      && |n| < 32 && (forall k :: 0 <= k < |n| ==> IsName(n[k]))
      && (|n| < 31 ==> rest == "" || !IsName(rest[0]))
      && (n == "" ==> rest == "" || rest[0] != '{')
  }

  // The scan replaces each reference by its value, once, and keeps everything else.
  lemma {:induction false} ExpandsReferences(st: Store, p: seq<Piece>)
    requires Readable(p)
    ensures Expanded(st, Text(p)) == Meaning(st, p)
  {
    hide Expanded, Value, IsName;
    if p != [] {
      ExpandsReferences(st, p[1..]);
      match p[0]
      case Lit(c) =>
        ExpandsLit(st, c, Text(p[1..]));
      case Ref(n) =>
        ExpandsRef(st, n, Text(p[1..]));
    } else {
      assert Expanded(st, "") == "" by { ExpandsNothing(st); }
    }
  }

  lemma ExpandsNothing(st: Store)
    ensures Expanded(st, "") == ""
  {
  }

  lemma ExpandsLit(st: Store, c: char, rest: string)
    requires c != '$'
    ensures Expanded(st, [c] + rest) == [c] + Expanded(st, rest)
  {
    assert ([c] + rest)[1..] == rest;
  }

  lemma ExpandsRef(st: Store, n: string, rest: string)
    requires Fits(Ref(n), rest)
    ensures Expanded(st, "$" + n + rest) == Value(st, n) + Expanded(st, rest)
  {
    hide Value, NameRun, BraceRun, AfterBrace;
    var s := "$" + n + rest;
    assert s[1..] == n + rest;
    assert (n + rest)[..|n|] == n && (n + rest)[|n|..] == rest;
    assert |s| > 1 ==> s[1] == if n == "" then rest[0] else n[0];
    NameRunExact(n, rest, NAME_SIZE - 1);
  }

  lemma {:induction false} NameRunExact(n: string, rest: string, limit: nat)
    requires |n| <= limit && forall k :: 0 <= k < |n| ==> IsName(n[k])
    requires |n| < limit ==> rest == "" || !IsName(rest[0])
    ensures NameRun(n + rest, limit) == |n|
  {
    if n == "" {
      assert n + rest == rest;
    } else {
      assert (n + rest)[1..] == n[1..] + rest;
      NameRunExact(n[1..], rest, limit - 1);
    }
  }

  // Every text without `${` is such a text.
  function Pieces(s: string): (p: seq<Piece>)
    decreases |s|
  {
    if s == "" then []
    else if s[0] != '$' then [Lit(s[0])] + Pieces(s[1..])
    else
      var n := NameRun(s[1..], NAME_SIZE - 1);
      [Ref(s[1..][..n])] + Pieces(s[1..][n..])
  }

  ghost predicate Braceless(s: string) { forall i :: 0 <= i < |s| - 1 ==> !(s[i] == '$' && s[i + 1] == '{') }

  lemma {:induction false} PiecesReadable(s: string)
    requires Braceless(s)
    ensures Readable(Pieces(s)) && Text(Pieces(s)) == s
    decreases |s|
  {
    hide NameRun, IsName, Readable, Text;
    if s == "" {
      NoPieces();
    } else if s[0] != '$' {
      PiecesReadable(s[1..]);
      PiecesAdd(Pieces(s[1..]), Lit(s[0]));
    } else {
      var n := NameRun(s[1..], NAME_SIZE - 1);
      var rest := s[1..][n..];
      assert rest == s[n + 1..];
      PiecesReadable(rest);
      PiecesAdd(Pieces(rest), Ref(s[1..][..n]));
      Rejoin(s, n);
    }
  }

  lemma Rejoin(s: string, n: nat)
    requires n < |s| && s[0] == '$'
    ensures "$" + s[1..][..n] + s[1..][n..] == s
  {
    assert s[1..][..n] + s[1..][n..] == s[1..];
    assert "$" + s[1..] == s;
    assert "$" + s[1..][..n] + s[1..][n..] == "$" + (s[1..][..n] + s[1..][n..]);
  }

  lemma NoPieces()
    ensures Readable([]) && Text([]) == ""
  {
  }

  lemma PiecesAdd(p: seq<Piece>, piece: Piece)
    requires Readable(p) && Fits(piece, Text(p))
    ensures Readable([piece] + p) && Text([piece] + p) == Shown(piece) + Text(p)
  {
    assert ([piece] + p)[1..] == p;
  }

  // The braced form drops the character after its brace.
  lemma BraceDropsNext(st: Store, name: string, c: char, rest: string)
    requires |name| < NAME_SIZE && '}' !in name
    ensures Expanded(st, "${" + name + "}" + [c] + rest) == Value(st, name) + Expanded(st, rest)
  {
    hide NameRun, BraceRun, Value;
    var s := "${" + name + "}" + [c] + rest;
    var t := name + ("}" + [c] + rest);
    BraceRunExact(name, "}" + [c] + rest, NAME_SIZE - 1);
    var n := BraceRun(t, NAME_SIZE - 1);
    assert s[..2] == "${" && s[2..] == t;
    assert t[..n] == name && t[n] == '}' && n + 2 <= |t|;
    assert t[n + 2..] == rest;
  }

  // A name of more than 31 characters in braces is cut there, and the next character dropped.
  lemma BraceCut(st: Store, name: string, c: char, rest: string)
    requires |name| == 31 && '}' !in name && c != '}'
    ensures Expanded(st, "${" + name + [c] + rest) == Value(st, name) + Expanded(st, rest)
  {
    hide NameRun, BraceRun, Value;
    var s, t := "${" + name + [c] + rest, name + ([c] + rest);
    BraceRunFull(name, [c] + rest);
    assert s[..2] == "${" && s[2..] == t;
    assert t[..31] == name && t[31] == c && t[32..] == rest;
  }

  lemma {:induction false} BraceRunFull(n: string, rest: string)
    requires '}' !in n
    ensures BraceRun(n + rest, |n|) == |n|
  {
    if n != "" {
      assert (n + rest)[1..] == n[1..] + rest;
      BraceRunFull(n[1..], rest);
    }
  }

  lemma {:induction false} BraceRunExact(n: string, rest: string, limit: nat)
    requires |n| <= limit && '}' !in n && rest != "" && rest[0] == '}'
    ensures BraceRun(n + rest, limit) == |n|
  {
    if n == "" {
      assert n + rest == rest;
    } else {
      assert (n + rest)[1..] == n[1..] + rest;
      BraceRunExact(n[1..], rest, limit - 1);
    }
  }
}
