/**
 The checks efuse_table_gen.py runs on a table of eFuse fields: every structured field has its root
 fields, and fields overlap only inside one structure.
 */
module Efuse {
  import opened Wrappers

  const DOT := '.'

  datatype Row = Row(name: string, block: string, start: int, count: int) {
    predicate Has(bit: int) {
      start <= bit < start + count
    }
    predicate Dotted() {
      DOT in name
    }
  }

  datatype Relation = Apart | IncludedIn | IntersectedWith | Wraps

  /** The inner check of verify: how p lies to n. */
  function Check(p: Row, n: Row): Relation {
    var left, right := n.start, n.start + n.count - 1;
    var start, end := p.start, p.start + p.count - 1;
    if left <= start <= right then
      if left <= end <= right then IncludedIn else IntersectedWith
    else if left <= end <= right then IntersectedWith
    else if start <= left && right <= end then Wraps
    else Apart
  }

  /** What the four answers mean for fields of at least one bit. */
  lemma CheckMeans(p: Row, n: Row)
    requires p.count >= 1 && n.count >= 1
    ensures Check(p, n) == Apart <==> forall b :: !(p.Has(b) && n.Has(b))
    ensures Check(p, n) == IncludedIn <==> forall b :: p.Has(b) ==> n.Has(b)
    ensures Check(p, n) == Wraps <==> p.start < n.start && n.start + n.count < p.start + p.count
    ensures Check(p, n) == Wraps ==> forall b :: n.Has(b) ==> p.Has(b)
  {
    assert p.Has(p.start) && p.Has(p.start + p.count - 1) && n.Has(n.start) && n.Has(n.start + n.count - 1);
  }

  /** name.split('.') */
  function Segments(name: string): (segs: seq<string>)
    ensures segs != [] && (|segs| > 1 <==> DOT in name)
    ensures |segs| == 1 ==> segs[0] == name
    ensures DOT !in segs[0]
  {
    var n := FirstDot(name);
    if n == |name| then
      assert name[..n] == name;
      [name]
    else [name[..n]] + Segments(name[n + 1..])
  }

  function FirstDot(s: string): (n: nat)
    ensures n <= |s| && DOT !in s[..n] && (n < |s| ==> s[n] == DOT)
  {
    if s == [] || s[0] == DOT then 0
    else
      var n := 1 + FirstDot(s[1..]);
      assert s[..n] == [s[0]] + s[1..][..n - 1];
      n
  }

  /** The name of the structure a field belongs to. */
  function Root(name: string): string {
    Segments(name)[0]
  }

  /** One more segment, as both loops over segments add it. */
  function Longer(name: string, sub: string): string {
    if name == "" then sub else name + [DOT] + sub
  }

  /** The names the loops over segments go through. */
  function Prefixes(name: string, segs: seq<string>): seq<string>
    decreases |segs|
  {
    if segs == [] then []
    else
      var n := Longer(name, segs[0]);
      [n] + Prefixes(n, segs[1..])
  }

  /** Row d is another row of the block that bears `name`. */
  predicate Bears(t: seq<Row>, i: nat, d: nat, name: string)
    requires i < |t| && d < |t|
  {
    d != i && t[i].block == t[d].block && name == t[d].name
  }

  /** The first k characters of a name end in front of a dot or are the whole name. */
  predicate IsCut(name: string, k: int) {
    0 <= k <= |name| && (k == |name| || name[k] == DOT)
  }

  ghost predicate IsBeginning(head: string, name: string, p: string) {
    exists k :: IsCut(name, k) && p == head + name[..k]
  }

  lemma NoCutBefore(name: string)
    ensures forall k :: IsCut(name, k) ==> k >= FirstDot(name)
  {
    var n := FirstDot(name);
    assert forall m :: 0 <= m < n ==> name[..n][m] == name[m];
  }

  lemma FirstBeginning(head: string, name: string, p: string)
    ensures var n := FirstDot(name);
            IsBeginning(head, name, p) <==>
              p == head + name[..n]
              || (n < |name| && IsBeginning(head + name[..n] + [DOT], name[n + 1..], p))
  {
    hide FirstDot;
    var n := FirstDot(name);
    NoCutBefore(name);
    assert IsCut(name, n);
    if k :| IsCut(name, k) && p == head + name[..k] && k != n {
      LongerBeginning(head, name, n, k);
    }
    if n < |name| && IsBeginning(head + name[..n] + [DOT], name[n + 1..], p) {
      var k :| IsCut(name[n + 1..], k) && p == head + name[..n] + [DOT] + name[n + 1..][..k];
      LongerBeginning(head, name, n, n + 1 + k);
    }
  }

  lemma LongerBeginning(head: string, name: string, n: nat, k: nat)
    requires n < k <= |name| && name[n] == DOT
    ensures head + name[..k] == head + name[..n] + [DOT] + name[n + 1..][..k - n - 1]
    ensures IsCut(name, k) <==> IsCut(name[n + 1..], k - n - 1)
  {
    assert name[..k] == name[..n] + [DOT] + name[n + 1..][..k - n - 1];
  }

  lemma {:induction false} PrefixesFrom(head: string, name: string, p: string)
    requires head != ""
    ensures p in Prefixes(head, Segments(name)) <==> IsBeginning(head + [DOT], name, p)
    decreases |name|
  {
    hide FirstDot, IsBeginning;
    var n := FirstDot(name);
    var next := head + [DOT] + name[..n];
    FirstBeginning(head + [DOT], name, p);
    if n == |name| {
      assert Prefixes(head, Segments(name)) == [next] && name[..n] == name;
    } else {
      assert Prefixes(head, Segments(name)) == [next] + Prefixes(next, Segments(name[n + 1..]));
      PrefixesFrom(next, name[n + 1..], p);
    }
  }

  lemma BareBeginning(name: string, p: string)
    ensures IsBeginning("", name, p) <==> exists k :: IsCut(name, k) && p == name[..k]
  {
    assert forall k :: 0 <= k <= |name| ==> "" + name[..k] == name[..k];
  }

  /** The loops go through the beginnings of a name in front of its dots, and the name itself. */
  lemma PrefixesAre(name: string, p: string)
    requires name == "" || name[0] != DOT
    ensures p in Prefixes("", Segments(name)) <==> exists k :: IsCut(name, k) && p == name[..k]
  {
    BareBeginning(name, p);
    FirstBeginning("", name, p);
    ProperPrefixes(name, p);
  }

  lemma ProperPrefixes(name: string, p: string)
    requires name == "" || name[0] != DOT
    ensures var n := FirstDot(name);
            p in Prefixes("", Segments(name)) <==>
              p == "" + name[..n] || (n < |name| && IsBeginning("" + name[..n] + [DOT], name[n + 1..], p))
  {
    hide IsBeginning;
    var n := FirstDot(name);
    assert "" + name[..n] == name[..n];
    if n == |name| {
      assert Prefixes("", Segments(name)) == [name] && name[..n] == name;
    } else {
      assert Prefixes("", Segments(name)) == [name[..n]] + Prefixes(name[..n], Segments(name[n + 1..]));
      PrefixesFrom(name[..n], name[n + 1..], p);
    }
  }

  // ---------- check_struct_field_name ----------

  ghost predicate HasRow(t: seq<Row>, i: nat, name: string)
    requires i < |t|
  {
    exists d :: 0 <= d < |t| && Bears(t, i, d, name)
  }

  ghost predicate RootsOk(t: seq<Row>) {
    forall i :: 0 <= i < |t| && t[i].Dotted() ==> RowRootsOk(t, i)
  }

  ghost predicate RowRootsOk(t: seq<Row>, i: nat)
    requires i < |t|
  {
    var segs := Segments(t[i].name);
    forall name :: name in Prefixes("", segs[..|segs| - 1]) ==> HasRow(t, i, name)
  }

  method CheckStructFieldName(t: seq<Row>) returns (ok: bool)
    ensures ok <==> RootsOk(t)
  {
    for i := 0 to |t|
      invariant forall k :: 0 <= k < i && t[k].Dotted() ==> RowRootsOk(t, k)
    {
      if DOT in t[i].name {
        var segs := Segments(t[i].name);
        var found := AllRootsFound(t, i, segs[..|segs| - 1]);
        if !found {
          return false;
        }
      }
    }
    return true;
  }

  method AllRootsFound(t: seq<Row>, i: nat, subs: seq<string>) returns (ok: bool)
    requires i < |t|
    ensures ok <==> forall name :: name in Prefixes("", subs) ==> HasRow(t, i, name)
  {
    var name := "";
    for k := 0 to |subs|
      invariant forall n :: n in Prefixes("", subs) ==> n in Prefixes(name, subs[k..]) || HasRow(t, i, n)
      invariant forall n :: n in Prefixes(name, subs[k..]) ==> n in Prefixes("", subs)
    {
      assert subs[k..][1..] == subs[k + 1..];
      name := Longer(name, subs[k]);
      var missed := true;
      for d := 0 to |t|
        invariant missed <==> forall e :: 0 <= e < d ==> !Bears(t, i, e, name)
      {
        if d != i && t[i].block == t[d].block && name == t[d].name {
          assert Bears(t, i, d, name);
          missed := false;
        }
      }
      if missed {
        assert name in Prefixes("", subs);
        return false;
      }
    }
    return true;
  }

  // ---------- the overlap part of verify ----------

  ghost predicate IsFirst(t: seq<Row>, i: nat, d: nat, name: string)
    requires i < |t| && d < |t|
  {
    Bears(t, i, d, name) && forall e :: 0 <= e < d ==> !Bears(t, i, e, name)
  }

  /** The first other row of the block that bears the name, if any, contains row i. */
  ghost predicate InsideFirst(t: seq<Row>, i: nat, name: string)
    requires i < |t|
  {
    forall d :: 0 <= d < |t| && IsFirst(t, i, d, name) ==> Check(t[i], t[d]) == IncludedIn
  }

  ghost predicate InsideAll(t: seq<Row>, i: nat)
    requires i < |t|
  {
    forall name :: name in Prefixes("", Segments(t[i].name)) ==> InsideFirst(t, i, name)
  }

  /** No complaint about the pair (i, j). */
  ghost predicate PairOk(t: seq<Row>, i: nat, j: nat)
    requires i < |t| && j < |t|
  {
    i != j && t[i].block == t[j].block && Check(t[i], t[j]) != Apart ==>
      if t[i].Dotted() then InsideAll(t, i) else t[j].Dotted()
  }

  ghost predicate OverlapsOk(t: seq<Row>) {
    forall i, j :: 0 <= i < |t| && 0 <= j < |t| ==> PairOk(t, i, j)
  }

  method VerifyOverlaps(t: seq<Row>) returns (ok: bool)
    ensures ok <==> OverlapsOk(t)
  {
    for i := 0 to |t|
      invariant forall k, j :: 0 <= k < i && 0 <= j < |t| ==> PairOk(t, k, j)
    {
      for j := 0 to |t|
        invariant forall k :: 0 <= k < j ==> PairOk(t, i, k)
      {
        if i != j && t[i].block == t[j].block && Check(t[i], t[j]) != Apart {
          if DOT in t[i].name {
            var inside := IsInsideAll(t, i);
            if !inside {
              assert !PairOk(t, i, j);
              return false;
            }
          } else if DOT !in t[j].name {
            assert !PairOk(t, i, j);
            return false;
          }
        }
      }
    }
    return true;
  }

  /** The loops over the segments of a dotted name and over the rows that bear each prefix. */
  method IsInsideAll(t: seq<Row>, i: nat) returns (ok: bool)
    requires i < |t|
    ensures ok <==> InsideAll(t, i)
  {
    var segs, name := Segments(t[i].name), "";
    for k := 0 to |segs|
      invariant forall n :: n in Prefixes("", segs) ==> n in Prefixes(name, segs[k..]) || InsideFirst(t, i, n)
      invariant forall n :: n in Prefixes(name, segs[k..]) ==> n in Prefixes("", segs)
    {
      assert segs[k..][1..] == segs[k + 1..];
      name := Longer(name, segs[k]);
      var inside := IsInsideFirst(t, i, name);
      if !inside {
        assert name in Prefixes("", segs);
        return false;
      }
    }
    return true;
  }

  method IsInsideFirst(t: seq<Row>, i: nat, name: string) returns (ok: bool)
    requires i < |t|
    ensures ok <==> InsideFirst(t, i, name)
  {
    for d := 0 to |t|
      invariant forall e :: 0 <= e < d ==> !Bears(t, i, e, name)
    {
      if d != i && t[i].block == t[d].block && name == t[d].name {
        assert IsFirst(t, i, d, name);
        assert forall e :: 0 <= e < |t| && IsFirst(t, i, e, name) ==> e == d;
        return Check(t[i], t[d]) == IncludedIn;
      }
    }
    return true;
  }

  // ---------- what a verified table promises ----------

  ghost predicate CountsOk(t: seq<Row>) {
    forall i :: 0 <= i < |t| ==> t[i].count >= 1
  }

  lemma FirstBearer(t: seq<Row>, i: nat, name: string) returns (d: nat)
    requires i < |t| && HasRow(t, i, name)
    ensures d < |t| && IsFirst(t, i, d, name)
  {
    d := 0;
    while !Bears(t, i, d, name)
      invariant d < |t| && forall e :: 0 <= e < d ==> !Bears(t, i, e, name)
      invariant exists e :: d <= e < |t| && Bears(t, i, e, name)
      decreases |t| - d
    {
      d := d + 1;
    }
  }

  /** A field that overlaps another lies inside one undotted field that bears its root name. */
  lemma RootRow(t: seq<Row>, i: nat, j: nat) returns (d: nat)
    requires RootsOk(t) && OverlapsOk(t) && CountsOk(t)
    requires i < |t| && j < |t| && i != j && t[i].block == t[j].block && Check(t[i], t[j]) != Apart && t[i].Dotted()
    ensures d < |t| && t[d].block == t[i].block && !t[d].Dotted() && t[d].name == Root(t[i].name)
    ensures forall b :: t[i].Has(b) ==> t[d].Has(b)
  {
    var segs := Segments(t[i].name);
    var root := segs[0];
    assert PairOk(t, i, j);
    assert RowRootsOk(t, i);
    assert segs[..|segs| - 1][0] == root;
    assert Prefixes("", segs[..|segs| - 1])[0] == root && Prefixes("", segs)[0] == root;
    d := FirstBearer(t, i, root);
    assert InsideFirst(t, i, root);
    CheckMeans(t[i], t[d]);
  }

  /** Two undotted rows of a block share no bit. */
  lemma UndottedDisjoint(t: seq<Row>, i: nat, j: nat, b: int)
    requires OverlapsOk(t) && CountsOk(t) && i < |t| && j < |t| && i != j && t[i].block == t[j].block
    requires !t[i].Dotted() && !t[j].Dotted()
    ensures !(t[i].Has(b) && t[j].Has(b))
  {
    assert PairOk(t, i, j);
    CheckMeans(t[i], t[j]);
  }

  /** Ownership: in a table that passes both checks, rows of a block that share a bit belong to the same
      structure, and at least one of two such rows is a structured field. */
  lemma SharedBitsShareRoot(t: seq<Row>, i: nat, j: nat, b: int)
    requires RootsOk(t) && OverlapsOk(t) && CountsOk(t)
    requires i < |t| && j < |t| && i != j && t[i].block == t[j].block && t[i].Has(b) && t[j].Has(b)
    ensures Root(t[i].name) == Root(t[j].name)
    ensures t[i].Dotted() || t[j].Dotted()
  {
    CheckMeans(t[i], t[j]);
    CheckMeans(t[j], t[i]);
    var d, e := i, j;
    if t[i].Dotted() {
      d := RootRow(t, i, j);
    }
    if t[j].Dotted() {
      e := RootRow(t, j, i);
    }
    assert t[d].Has(b) && t[e].Has(b);
    if d != e {
      UndottedDisjoint(t, d, e, b);
    }
  }

  ghost predicate Within(p: Row, n: Row) {
    forall b :: p.Has(b) ==> n.Has(b)
  }

  ghost predicate ShareBits(t: seq<Row>, i: nat, j: nat)
    requires i < |t| && j < |t|
  {
    i != j && t[i].block == t[j].block && exists b :: t[i].Has(b) && t[j].Has(b)
  }

  /** A structured field that shares bits with another row lies within the first row, other than itself,
      that bears a beginning of its name. */
  ghost predicate WellPlaced(t: seq<Row>, i: nat)
    requires i < |t|
  {
    forall k, d :: IsCut(t[i].name, k) && 0 <= d < |t| && IsFirst(t, i, d, t[i].name[..k]) ==> Within(t[i], t[d])
  }

  ghost predicate PlacedOk(t: seq<Row>) {
    forall i, j :: 0 <= i < |t| && 0 <= j < |t| && ShareBits(t, i, j) ==>
                     if t[i].Dotted() then WellPlaced(t, i) else t[j].Dotted()
  }

  /** A table passes the overlap check exactly when rows of a block that share a bit are not both undotted,
      and those of them that are dotted are well placed. */
  lemma OverlapsMean(t: seq<Row>)
    requires CountsOk(t) && forall i :: 0 <= i < |t| ==> t[i].name == "" || t[i].name[0] != DOT
    ensures OverlapsOk(t) <==> PlacedOk(t)
  {
    forall i, j | 0 <= i < |t| && 0 <= j < |t|
      ensures PairOk(t, i, j) <==> (ShareBits(t, i, j) ==> if t[i].Dotted() then WellPlaced(t, i) else t[j].Dotted())
    {
      CheckMeans(t[i], t[j]);
      PlacedMeans(t, i);
    }
  }

  lemma PlacedMeans(t: seq<Row>, i: nat)
    requires CountsOk(t) && i < |t| && (t[i].name == "" || t[i].name[0] != DOT)
    ensures InsideAll(t, i) <==> WellPlaced(t, i)
  {
    if InsideAll(t, i) {
      forall k, d | IsCut(t[i].name, k) && 0 <= d < |t| && IsFirst(t, i, d, t[i].name[..k])
        ensures Within(t[i], t[d])
      {
        PrefixesAre(t[i].name, t[i].name[..k]);
        assert InsideFirst(t, i, t[i].name[..k]);
        CheckMeans(t[i], t[d]);
      }
    }
    if WellPlaced(t, i) {
      forall name | name in Prefixes("", Segments(t[i].name)) ensures InsideFirst(t, i, name) {
        PrefixesAre(t[i].name, name);
        forall d | 0 <= d < |t| && IsFirst(t, i, d, name) ensures Check(t[i], t[d]) == IncludedIn {
          CheckMeans(t[i], t[d]);
        }
      }
    }
  }

  /** For a table without structured fields the overlap check is exactly disjointness. */
  lemma FlatTable(t: seq<Row>)
    requires CountsOk(t) && forall i :: 0 <= i < |t| ==> !t[i].Dotted()
    ensures OverlapsOk(t) <==>
            forall i, j, b :: 0 <= i < |t| && 0 <= j < |t| && i != j && t[i].block == t[j].block ==>
                            !(t[i].Has(b) && t[j].Has(b))
  {
    if OverlapsOk(t) {
      forall i, j, b | 0 <= i < |t| && 0 <= j < |t| && i != j && t[i].block == t[j].block
        ensures !(t[i].Has(b) && t[j].Has(b))
      {
        UndottedDisjoint(t, i, j, b);
      }
    } else {
      var i, j :| 0 <= i < |t| && 0 <= j < |t| && !PairOk(t, i, j);
      CheckMeans(t[i], t[j]);
    }
  }

  // ---------- the start bits from_csv fills in ----------

  datatype Field = Field(block: string, start: Option<int>, count: int)

  /** Every start is the one given, else the end of the row before if that is of the same block, else 0;
      nothing else changes. */
  ghost predicate StartsFilled(before: seq<Field>, after: seq<Field>) {
    && |after| == |before|
    && (forall i :: 0 <= i < |before| ==> after[i] == before[i].(start := after[i].start) && after[i].start.Some?)
    && forall i :: 0 <= i < |before| ==>
         after[i].start.value ==
           if before[i].start.Some? then before[i].start.value
           else if i > 0 && before[i - 1].block == before[i].block then after[i - 1].start.value + before[i - 1].count
           else 0
  }

  ghost function StartGiven(before: seq<Field>, after: seq<Field>, i: nat): int
    requires i < |before| == |after|
  {
    if before[i].start.Some? then before[i].start.value
    else if i > 0 && before[i - 1].block == before[i].block && after[i - 1].start.Some? then End(after[i - 1])
    else 0
  }

  function End(f: Field): int
    requires f.start.Some?
  {
    f.start.value + f.count
  }

  lemma GivenIsFilled(before: seq<Field>, after: seq<Field>)
    requires |before| == |after|
    requires forall i :: 0 <= i < |before| ==> after[i] == before[i].(start := Some(StartGiven(before, after, i)))
    ensures StartsFilled(before, after)
  {
  }

  method FillStarts(fs: array<Field>)
    modifies fs
    ensures StartsFilled(old(fs[..]), fs[..])
  {
    hide StartsFilled;
    ghost var before := fs[..];
    var lastBlock: Option<string>, lastEnd := None, 0;
    for i := 0 to fs.Length
      invariant forall k :: i <= k < fs.Length ==> fs[k] == before[k]
      invariant forall k :: 0 <= k < i ==> fs[k] == before[k].(start := Some(StartGiven(before, fs[..], k)))
      invariant if i == 0 then lastBlock == None else lastBlock == Some(fs[i - 1].block) && lastEnd == End(fs[i - 1])
    {
      if lastBlock != Some(fs[i].block) {
        lastEnd := 0;
      }
      if fs[i].start.None? {
        fs[i] := fs[i].(start := Some(lastEnd));
      }
      lastEnd := End(fs[i]);
      lastBlock := Some(fs[i].block);
    }
    GivenIsFilled(before, fs[..]);
  }

  function Total(fs: seq<Field>): int {
    if fs == [] then 0 else Total(fs[..|fs| - 1]) + fs[|fs| - 1].count
  }

  /** Consecutive rows of one block without starts of their own lie one behind the other without gaps. */
  lemma {:induction false} RunAscends(before: seq<Field>, after: seq<Field>, i: nat, j: nat)
    requires StartsFilled(before, after) && i <= j < |before|
    requires forall k :: i < k <= j ==> before[k].block == before[i].block && before[k].start.None?
    ensures after[i].start.Some? && after[j].start.Some?
    ensures after[j].start.value == after[i].start.value + Total(before[i..j])
    decreases j
  {
    if i < j {
      assert before[j - 1].block == before[j].block;
      RunAscends(before, after, i, j - 1);
      assert before[i..j][..j - i - 1] == before[i..j - 1];
    }
  }
}
