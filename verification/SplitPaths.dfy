/**
 split_paths_by_spaces.py: recovering a list of paths from a string in which spaces both separate paths
 and occur in them, by trying every way to cut the string at its spaces.
 Which paths exist is a parameter.
 */
module SplitPaths {
  import opened Modular

  const SPACE := ' '

  datatype Result = Paths(paths: seq<string>) | NoWay | ManyWays

  predicate SpaceFree(s: string) {
    SPACE !in s
  }

  /** ' '.join(pieces) */
  function Join(pieces: seq<string>): string
    requires pieces != []
  {
    if |pieces| == 1 then pieces[0] else pieces[0] + [SPACE] + Join(pieces[1..])
  }

  /** s.split(' ') */
  function Split(s: string): (parts: seq<string>)
    ensures parts != [] && Join(parts) == s
    ensures forall p :: p in parts ==> SpaceFree(p)
  {
    var n := FirstSpace(s);
    if n == |s| then [s]
    else
      assert s == s[..n] + [SPACE] + s[n + 1..];
      var rest := Split(s[n + 1..]);
      assert ([s[..n]] + rest)[1..] == rest;
      [s[..n]] + rest
  }

  function FirstSpace(s: string): (n: nat)
    ensures n <= |s| && SpaceFree(s[..n]) && (n < |s| ==> s[n] == SPACE)
  {
    if s == [] || s[0] == SPACE then 0
    else
      var n := 1 + FirstSpace(s[1..]);
      assert s[..n] == [s[0]] + s[1..][..n - 1];
      n
  }

  /** The pieces when `head` is already glued together and bit i of n says whether to cut before rest[i]. */
  function CutFrom(head: string, rest: seq<string>, n: nat): (pieces: seq<string>)
    ensures pieces != []
    decreases |rest|
  {
    if rest == [] then [head]
    else if n % 2 == 1 then [head] + CutFrom(rest[0], rest[1..], n / 2)
    else CutFrom(head + [SPACE] + rest[0], rest[1..], n / 2)
  }

  function Cut(parts: seq<string>, n: nat): (pieces: seq<string>)
    requires parts != []
    ensures pieces != []
  {
    CutFrom(parts[0], parts[1..], n)
  }

  /** Bit i of n decides about the space before part i + 1: with one more part the pieces get one more, or
      the last of them gets longer. */
  lemma {:induction false} CutLast(head: string, rest: seq<string>, b: string, n: nat)
    ensures var c := CutFrom(head, rest, n);
            CutFrom(head, rest + [b], n) ==
              if Bit(n, |rest|) then c + [b] else c[..|c| - 1] + [c[|c| - 1] + [SPACE] + b]
    decreases |rest|
  {
    if rest == [] {
      assert rest + [b] == [b] && [b][1..] == [];
      assert CutFrom(b, [], n / 2) == [b] && CutFrom(head + [SPACE] + b, [], n / 2) == [head + [SPACE] + b];
    } else {
      assert (rest + [b])[1..] == rest[1..] + [b];
      CutLast(if n % 2 == 1 then rest[0] else head + [SPACE] + rest[0], rest[1..], b, n / 2);
    }
  }

  /** Bit i, as shifting n to the right i times shows it. */
  function Bit(n: nat, i: nat): bool {
    if i == 0 then n % 2 == 1 else Bit(n / 2, i - 1)
  }

  /** The four ways to cut three parts. */
  lemma CutThree(a: string, b: string, c: string)
    ensures Cut([a, b, c], 0) == [a + [SPACE] + b + [SPACE] + c]
    ensures Cut([a, b, c], 1) == [a, b + [SPACE] + c]
    ensures Cut([a, b, c], 2) == [a + [SPACE] + b, c]
    ensures Cut([a, b, c], 3) == [a, b, c]
  {
    assert [a, b, c][1..] == [b, c] && [b, c][1..] == [c];
    CutTwo(b, c, 0);
    CutTwo(b, c, 1);
    CutTwo(a + [SPACE] + b, c, 0);
    CutTwo(a + [SPACE] + b, c, 1);
  }

  lemma CutTwo(a: string, b: string, n: nat)
    ensures CutFrom(a, [b], n) == if n % 2 == 1 then [a, b] else [a + [SPACE] + b]
  {
    assert [b][1..] == [];
    assert CutFrom(b, [], n / 2) == [b] && CutFrom(a + [SPACE] + b, [], n / 2) == [a + [SPACE] + b];
  }

  // ---------- every number is a way to cut, and every way to cut is one number ----------

  lemma JoinCons(a: string, pieces: seq<string>)
    requires pieces != []
    ensures Join([a] + pieces) == a + [SPACE] + Join(pieces)
  {
    assert ([a] + pieces)[1..] == pieces;
  }

  lemma JoinGlue(a: string, b: string, rest: seq<string>)
    ensures Join([a + [SPACE] + b] + rest) == a + [SPACE] + Join([b] + rest)
  {
    if rest == [] {
      assert [a + [SPACE] + b] + rest == [a + [SPACE] + b] && [b] + rest == [b];
    } else {
      JoinCons(a + [SPACE] + b, rest);
      JoinCons(b, rest);
      assert (a + [SPACE] + b) + [SPACE] + Join(rest) == a + [SPACE] + (b + [SPACE] + Join(rest));
    }
  }

  /** Rejoining the pieces restores the string. */
  lemma {:induction false} CutRejoins(head: string, rest: seq<string>, n: nat)
    ensures Join(CutFrom(head, rest, n)) == Join([head] + rest)
    decreases |rest|
  {
    if rest == [] {
      assert [head] + rest == [head];
    } else {
      var b, more := rest[0], rest[1..];
      assert rest == [b] + more;
      if n % 2 == 1 {
        CutRejoins(b, more, n / 2);
        JoinCons(head, CutFrom(b, more, n / 2));
        JoinCons(head, rest);
      } else {
        CutRejoins(head + [SPACE] + b, more, n / 2);
        JoinGlue(head, b, more);
        JoinCons(head, rest);
      }
    }
  }

  /** A piece that starts a space-free part contains all of it. */
  lemma FirstPieceCovers(pieces: seq<string>, part: string, rest: seq<string>)
    requires pieces != [] && SpaceFree(part) && Join(pieces) == Join([part] + rest)
    ensures |pieces[0]| >= |part|
  {
    var s := Join(pieces);
    if rest == [] {
      assert [part] + rest == [part];
    } else {
      JoinCons(part, rest);
    }
    assert s[..|part|] == part;
    assert forall i :: 0 <= i < |part| ==> s[i] == part[i] && part[i] in part;
    assert |pieces| > 1 ==> s[|pieces[0]|] == SPACE;
  }

  /** The number of a way to cut. */
  lemma {:induction false} CutExists(head: string, rest: seq<string>, pieces: seq<string>) returns (n: nat)
    requires forall p :: p in rest ==> SpaceFree(p)
    requires pieces != [] && Join(pieces) == Join([head] + rest) && |pieces[0]| >= |head|
    ensures n < Pow2(|rest|) && CutFrom(head, rest, n) == pieces
    decreases |rest|
  {
    var s := Join(pieces);
    if rest == [] {
      assert [head] + rest == [head];
      n := 0;
    } else {
      var b, more := rest[0], rest[1..];
      assert rest == [b] + more;
      JoinCons(head, rest);
      if |pieces[0]| == |head| {
        n := CutHere(head, b, more, pieces);
      } else {
        n := GlueHere(head, b, more, pieces);
      }
    }
  }

  lemma {:induction false} CutHere(head: string, b: string, more: seq<string>, pieces: seq<string>) returns (n: nat)
    requires SpaceFree(b) && forall p :: p in more ==> SpaceFree(p)
    requires pieces != [] && Join(pieces) == head + [SPACE] + Join([b] + more) && |pieces[0]| == |head|
    ensures n < Pow2(|more| + 1) && CutFrom(head, [b] + more, n) == pieces
    decreases |more| + 1, 0
  {
    var s, tail := Join(pieces), pieces[1..];
    assert s[..|head|] == head && s[|head| + 1..] == Join([b] + more);
    if tail != [] {
      assert s == pieces[0] + [SPACE] + Join(tail);
      assert s[..|head|] == pieces[0] && s[|head| + 1..] == Join(tail);
      FirstPieceCovers(tail, b, more);
      var k := CutExists(b, more, tail);
      n := 2 * k + 1;
      assert ([b] + more)[1..] == more;
      assert pieces == [head] + tail;
    }
  }

  lemma {:induction false} GlueHere(head: string, b: string, more: seq<string>, pieces: seq<string>) returns (n: nat)
    requires SpaceFree(b) && forall p :: p in more ==> SpaceFree(p)
    requires pieces != [] && Join(pieces) == head + [SPACE] + Join([b] + more) && |pieces[0]| > |head|
    ensures n < Pow2(|more| + 1) && CutFrom(head, [b] + more, n) == pieces
    decreases |more| + 1, 0
  {
    var glued := head + [SPACE] + b;
    JoinGlue(head, b, more);
    GlueCovers(head, b, more, pieces);
    var k := CutExists(glued, more, pieces);
    n := 2 * k;
    assert ([b] + more)[1..] == more;
  }

  lemma GlueCovers(head: string, b: string, more: seq<string>, pieces: seq<string>)
    requires SpaceFree(b) && pieces != [] && |pieces[0]| > |head|
    requires Join(pieces) == head + [SPACE] + Join([b] + more)
    ensures |pieces[0]| >= |head + [SPACE] + b|
  {
    var s, k := Join(pieces), |head| + 1;
    if more == [] {
      assert [b] + more == [b];
    } else {
      JoinCons(b, more);
    }
    assert s[k..k + |b|] == b;
    assert forall i :: k <= i < k + |b| ==> s[i] == b[i - k] && b[i - k] in b;
    assert |pieces| > 1 ==> s[|pieces[0]|] == SPACE;
  }

  lemma {:induction false} FirstPieceLength(head: string, rest: seq<string>, n: nat)
    ensures |CutFrom(head, rest, n)[0]| >= |head|
    ensures rest != [] ==> (|CutFrom(head, rest, n)[0]| == |head| <==> n % 2 == 1)
    decreases |rest|
  {
    if rest != [] && n % 2 == 0 {
      FirstPieceLength(head + [SPACE] + rest[0], rest[1..], n / 2);
    }
  }

  /** Different numbers cut differently. */
  lemma {:induction false} CutInjective(head: string, rest: seq<string>, n: nat, n': nat)
    requires n < Pow2(|rest|) && n' < Pow2(|rest|) && CutFrom(head, rest, n) == CutFrom(head, rest, n')
    ensures n == n'
    decreases |rest|
  {
    if rest != [] {
      FirstPieceLength(head, rest, n);
      FirstPieceLength(head, rest, n');
      if n % 2 == 1 {
        assert CutFrom(head, rest, n)[1..] == CutFrom(rest[0], rest[1..], n / 2);
        assert CutFrom(head, rest, n')[1..] == CutFrom(rest[0], rest[1..], n' / 2);
        CutInjective(rest[0], rest[1..], n / 2, n' / 2);
      } else {
        CutInjective(head + [SPACE] + rest[0], rest[1..], n / 2, n' / 2);
      }
    }
  }

  // ---------- the search ----------

  /** src.lstrip(' ').rstrip(' ') */
  function Trim(s: string): string {
    TrimRight(TrimLeft(s))
  }

  function TrimLeft(s: string): string {
    if s != [] && s[0] == SPACE then TrimLeft(s[1..]) else s
  }

  function TrimRight(s: string): string {
    if s != [] && s[|s| - 1] == SPACE then TrimRight(s[..|s| - 1]) else s
  }

  /** Trimming takes spaces off both ends, and all of them. */
  lemma TrimIs(s: string) returns (left: nat, right: nat)
    ensures s == seq(left, i => SPACE) + Trim(s) + seq(right, i => SPACE)
    ensures Trim(s) != [] ==> Trim(s)[0] != SPACE && Trim(s)[|Trim(s)| - 1] != SPACE
  {
    left := TrimLeftIs(s);
    right := TrimRightIs(TrimLeft(s));
  }

  lemma {:induction false} TrimLeftIs(s: string) returns (n: nat)
    ensures s == seq(n, i => SPACE) + TrimLeft(s)
    ensures TrimLeft(s) != [] ==> TrimLeft(s)[0] != SPACE
  {
    n := 0;
    if s != [] && s[0] == SPACE {
      var k := TrimLeftIs(s[1..]);
      n := k + 1;
      assert seq(n, i => SPACE) == [SPACE] + seq(k, i => SPACE);
      assert s == [SPACE] + s[1..];
    }
  }

  lemma {:induction false} TrimRightIs(s: string) returns (n: nat)
    ensures s == TrimRight(s) + seq(n, i => SPACE)
    ensures TrimRight(s) != [] ==> TrimRight(s)[0] == s[0] && TrimRight(s)[|TrimRight(s)| - 1] != SPACE
    decreases |s|
  {
    n := 0;
    if s != [] && s[|s| - 1] == SPACE {
      var k := TrimRightIs(s[..|s| - 1]);
      n := k + 1;
      assert seq(n, i => SPACE) == seq(k, i => SPACE) + [SPACE];
      assert s == s[..|s| - 1] + [SPACE];
    }
  }

  function NonEmpty(pieces: seq<string>): seq<string> {
    if pieces == [] then []
    else (if pieces[0] == [] then [] else [pieces[0]]) + NonEmpty(pieces[1..])
  }

  /** A way to cut s at spaces, all of whose non-empty pieces exist. */
  predicate IsValidCut(s: string, exists_: string -> bool, pieces: seq<string>) {
    pieces != [] && Join(pieces) == s && forall p :: p in pieces && p != [] ==> exists_(p)
  }

  /** The one way to cut s, if there is exactly one. */
  ghost predicate IsOnlyCut(s: string, exists_: string -> bool, pieces: seq<string>) {
    IsValidCut(s, exists_, pieces) && forall other :: IsValidCut(s, exists_, other) ==> other == pieces
  }

  /** selective_join. */
  method SelectiveJoin(parts: seq<string>, n: nat) returns (result: seq<string>)
    requires parts != []
    ensures result == Cut(parts, n)
  {
    var concatenated, m := [parts[0]], n;
    result := [];
    for i := 1 to |parts|
      invariant concatenated != []
      invariant Cut(parts, n) == result + CutFrom(Join(concatenated), parts[i..], m)
    {
      var part := parts[i];
      assert parts[i..][1..] == parts[i + 1..];
      if m % 2 == 1 {
        result := result + [Join(concatenated)];
        concatenated := [part];
      } else {
        JoinSnoc(concatenated, part);
        concatenated := concatenated + [part];
      }
      m := m / 2;
    }
    result := result + [Join(concatenated)];
  }

  lemma {:induction false} JoinSnoc(pieces: seq<string>, b: string)
    requires pieces != []
    ensures Join(pieces + [b]) == Join(pieces) + [SPACE] + b
    decreases |pieces|
  {
    if |pieces| == 1 {
      assert (pieces + [b])[1..] == [b];
    } else {
      assert (pieces + [b])[1..] == pieces[1..] + [b];
      JoinSnoc(pieces[1..], b);
    }
  }

  method FilterNonEmpty(pieces: seq<string>) returns (r: seq<string>)
    ensures r == NonEmpty(pieces)
  {
    r := [];
    for i := 0 to |pieces|
      invariant NonEmpty(pieces) == r + NonEmpty(pieces[i..])
    {
      assert pieces[i..][1..] == pieces[i + 1..];
      if pieces[i] != [] {
        r := r + [pieces[i]];
      }
    }
  }

  lemma {:induction false} NonEmptyElements(pieces: seq<string>, p: string)
    ensures p in NonEmpty(pieces) <==> p in pieces && p != []
    decreases |pieces|
  {
    if pieces != [] {
      assert pieces == [pieces[0]] + pieces[1..];
      NonEmptyElements(pieces[1..], p);
    }
  }

  /** The subsequence of the non-empty pieces: `at` says where each of them stands, in order. */
  lemma {:induction false} NonEmptyAre(pieces: seq<string>) returns (at: seq<nat>)
    ensures |at| == |NonEmpty(pieces)|
    ensures forall k :: 0 <= k < |at| ==> at[k] < |pieces| && NonEmpty(pieces)[k] == pieces[at[k]] != []
    ensures forall k, l :: 0 <= k < l < |at| ==> at[k] < at[l]
    ensures forall i :: 0 <= i < |pieces| && pieces[i] != [] ==> i in at
    decreases |pieces|
  {
    at := [];
    if pieces != [] {
      var n := |pieces| - 1;
      NonEmptySnoc(pieces[..n], pieces[n]);
      assert pieces[..n] + [pieces[n]] == pieces;
      at := NonEmptyAre(pieces[..n]);
      if pieces[n] != [] {
        at := at + [n];
      }
    }
  }

  lemma {:induction false} NonEmptySnoc(pieces: seq<string>, p: string)
    ensures NonEmpty(pieces + [p]) == NonEmpty(pieces) + if p == [] then [] else [p]
    decreases |pieces|
  {
    if pieces == [] {
      assert pieces + [p] == [p] && [p][1..] == [];
    } else {
      assert (pieces + [p])[1..] == pieces[1..] + [p];
      NonEmptySnoc(pieces[1..], p);
    }
  }

  /** Numbers below `bound` whose cut is valid, in order. */
  ghost function ValidNumbers(parts: seq<string>, exists_: string -> bool, bound: nat): seq<nat>
    requires parts != []
  {
    if bound == 0 then []
    else
      var ns := ValidNumbers(parts, exists_, bound - 1);
      if IsValidCut(Join(parts), exists_, Cut(parts, bound - 1)) then ns + [bound - 1] else ns
  }

  /** They are exactly those numbers, ... */
  lemma {:induction false} ValidNumbersAre(parts: seq<string>, exists_: string -> bool, bound: nat, n: nat)
    requires parts != []
    ensures n in ValidNumbers(parts, exists_, bound)
            <==> n < bound && IsValidCut(Join(parts), exists_, Cut(parts, n))
    decreases bound
  {
    hide IsValidCut, Cut, Join;
    if bound > 0 {
      ValidNumbersAre(parts, exists_, bound - 1, n);
    }
  }

  predicate Ascends(ns: seq<nat>, bound: nat) {
    && (forall i :: 0 <= i < |ns| ==> ns[i] < bound)
    && (forall i, j :: 0 <= i < j < |ns| ==> ns[i] < ns[j])
  }

  /** ... each once. */
  lemma {:induction false} ValidNumbersAscend(parts: seq<string>, exists_: string -> bool, bound: nat)
    requires parts != []
    ensures Ascends(ValidNumbers(parts, exists_, bound), bound)
    decreases bound
  {
    hide IsValidCut, Cut, Join;
    if bound > 0 {
      ValidNumbersAscend(parts, exists_, bound - 1);
      OneMoreAscends(ValidNumbers(parts, exists_, bound - 1), bound - 1);
    }
  }

  lemma OneMoreAscends(ns: seq<nat>, bound: nat)
    requires Ascends(ns, bound)
    ensures Ascends(ns, bound + 1) && Ascends(ns + [bound], bound + 1)
  {
  }

  lemma CutOfParts(parts: seq<string>, n: nat)
    requires parts != []
    ensures Join(Cut(parts, n)) == Join(parts)
  {
    CutRejoins(parts[0], parts[1..], n);
    assert [parts[0]] + parts[1..] == parts;
  }

  lemma NumberOfCut(parts: seq<string>, pieces: seq<string>) returns (n: nat)
    requires parts != [] && forall p :: p in parts ==> SpaceFree(p)
    requires pieces != [] && Join(pieces) == Join(parts)
    ensures n < Pow2(|parts| - 1) && Cut(parts, n) == pieces
  {
    assert [parts[0]] + parts[1..] == parts;
    FirstPieceCovers(pieces, parts[0], parts[1..]);
    n := CutExists(parts[0], parts[1..], pieces);
  }

  /** selective_join is a bijection from [0, 2^N) onto the ways to cut a string with N spaces at them. */
  lemma CutsAreNumbers(s: string, pieces: seq<string>)
    ensures var parts := Split(s);
            && (pieces != [] && Join(pieces) == s <==>
                  exists n :: 0 <= n < Pow2(|parts| - 1) && Cut(parts, n) == pieces)
            && (forall n, m ::
                  0 <= n < Pow2(|parts| - 1) && 0 <= m < Pow2(|parts| - 1) && Cut(parts, n) == Cut(parts, m) ==>
                    n == m)
  {
    var parts := Split(s);
    if pieces != [] && Join(pieces) == s {
      var n := NumberOfCut(parts, pieces);
    }
    if n: nat :| 0 <= n < Pow2(|parts| - 1) && Cut(parts, n) == pieces {
      CutOfParts(parts, n);
    }
    forall n, m | 0 <= n < Pow2(|parts| - 1) && 0 <= m < Pow2(|parts| - 1) && Cut(parts, n) == Cut(parts, m)
      ensures n == m
    {
      CutInjective(parts[0], parts[1..], n, m);
    }
  }

  /** split_paths_by_spaces: a string with a space is split exactly when one cut of the trimmed string has
      only pieces that exist, and then into the non-empty pieces of that cut. */
  method SplitPathsBySpaces(src: string, exists_: string -> bool) returns (r: Result)
    ensures SpaceFree(src) ==> r == Paths([src])
    ensures !SpaceFree(src) ==>
      (r.Paths? <==> exists pieces :: IsOnlyCut(Trim(src), exists_, pieces))
    ensures !SpaceFree(src) ==>
      forall pieces :: IsOnlyCut(Trim(src), exists_, pieces) ==> r == Paths(NonEmpty(pieces))
    ensures !SpaceFree(src) ==> (r == NoWay <==> forall pieces :: !IsValidCut(Trim(src), exists_, pieces))
  {
    if SPACE !in src {
      return Paths([src]);
    }
    r := Search(Trim(src), exists_);
  }

  /** The enumeration of all ways to cut. */
  method Search(s: string, exists_: string -> bool) returns (r: Result)
    ensures r.Paths? <==> exists pieces :: IsOnlyCut(s, exists_, pieces)
    ensures forall pieces :: IsOnlyCut(s, exists_, pieces) ==> r == Paths(NonEmpty(pieces))
    ensures r == NoWay <==> forall pieces :: !IsValidCut(s, exists_, pieces)
  {
    var parts := Split(s);
    var valid, ns := ValidWays(parts, exists_);
    CountDecides(s, parts, exists_, ns);
    r := if |valid| == 1 then Paths(valid[0]) else if |valid| == 0 then NoWay else ManyWays;
  }

  method ValidWays(parts: seq<string>, exists_: string -> bool) returns (valid: seq<seq<string>>, ghost ns: seq<nat>)
    requires parts != []
    ensures ns == ValidNumbers(parts, exists_, Pow2(|parts| - 1)) && |ns| == |valid|
    ensures forall k :: 0 <= k < |ns| ==> valid[k] == NonEmpty(Cut(parts, ns[k]))
  {
    valid, ns := [], [];
    for i := 0 to Pow2(|parts| - 1)
      invariant ns == ValidNumbers(parts, exists_, i) && |ns| == |valid|
      invariant forall k :: 0 <= k < |ns| ==> valid[k] == NonEmpty(Cut(parts, ns[k]))
    {
      var ok, nonempty := TryNumber(parts, i, exists_);
      if ok {
        valid := valid + [nonempty];
        ns := ns + [i];
      }
    }
  }

  method TryNumber(parts: seq<string>, n: nat, exists_: string -> bool) returns (ok: bool, nonempty: seq<string>)
    requires parts != []
    ensures ok <==> IsValidCut(Join(parts), exists_, Cut(parts, n))
    ensures nonempty == NonEmpty(Cut(parts, n))
  {
    var pieces := SelectiveJoin(parts, n);
    nonempty := FilterNonEmpty(pieces);
    CutOfParts(parts, n);
    forall p ensures p in nonempty <==> p in pieces && p != [] {
      NonEmptyElements(pieces, p);
    }
    ok := forall p :: p in nonempty ==> p == [] || exists_(p);
  }

  lemma ValidCutIsCounted(parts: seq<string>, exists_: string -> bool, ns: seq<nat>,
                          pieces: seq<string>) returns (k: nat)
    requires parts != [] && forall p :: p in parts ==> SpaceFree(p)
    requires ns == ValidNumbers(parts, exists_, Pow2(|parts| - 1)) && IsValidCut(Join(parts), exists_, pieces)
    ensures k < |ns| && Cut(parts, ns[k]) == pieces
  {
    var n := NumberOfCut(parts, pieces);
    ValidNumbersAre(parts, exists_, Pow2(|parts| - 1), n);
    k :| 0 <= k < |ns| && ns[k] == n;
  }

  lemma CountedIsValid(s: string, parts: seq<string>, exists_: string -> bool, ns: seq<nat>, k: nat)
    requires parts == Split(s) && ns == ValidNumbers(parts, exists_, Pow2(|parts| - 1)) && k < |ns|
    ensures ns[k] < Pow2(|parts| - 1) && IsValidCut(s, exists_, Cut(parts, ns[k]))
  {
    hide IsValidCut, Cut, ValidNumbers, Pow2;
    assert ns[k] in ns;
    ValidNumbersAre(parts, exists_, Pow2(|parts| - 1), ns[k]);
  }

  lemma NoneCounted(s: string, parts: seq<string>, exists_: string -> bool, pieces: seq<string>)
    requires parts == Split(s) && ValidNumbers(parts, exists_, Pow2(|parts| - 1)) == []
    ensures !IsValidCut(s, exists_, pieces)
  {
    hide IsValidCut, Cut, ValidNumbers, Pow2, Join, Split;
    if IsValidCut(s, exists_, pieces) {
      var k := ValidCutIsCounted(parts, exists_, [], pieces);
    }
  }

  lemma OneCounted(s: string, parts: seq<string>, exists_: string -> bool, n: nat, pieces: seq<string>)
    requires parts == Split(s) && ValidNumbers(parts, exists_, Pow2(|parts| - 1)) == [n]
    requires IsValidCut(s, exists_, pieces)
    ensures pieces == Cut(parts, n)
  {
    hide IsValidCut, Cut, ValidNumbers, Pow2, Join, Split;
    var k := ValidCutIsCounted(parts, exists_, [n], pieces);
  }

  lemma ManyCounted(s: string, parts: seq<string>, exists_: string -> bool, ns: seq<nat>, pieces: seq<string>)
    requires parts == Split(s) && ns == ValidNumbers(parts, exists_, Pow2(|parts| - 1)) && |ns| > 1
    ensures !IsOnlyCut(s, exists_, pieces)
  {
    hide IsValidCut, Cut, ValidNumbers, Pow2, Join, Split;
    CountedIsValid(s, parts, exists_, ns, 0);
    CountedIsValid(s, parts, exists_, ns, 1);
    ValidNumbersAscend(parts, exists_, Pow2(|parts| - 1));
    CutsDiffer(parts, ns[0], ns[1]);
  }

  /** Counting the valid numbers counts the valid cuts: none, one, or more. */
  lemma CountDecides(s: string, parts: seq<string>, exists_: string -> bool, ns: seq<nat>)
    requires parts == Split(s) && ns == ValidNumbers(parts, exists_, Pow2(|parts| - 1))
    ensures |ns| == 1 ==> IsOnlyCut(s, exists_, Cut(parts, ns[0]))
    ensures |ns| == 0 <==> forall pieces :: !IsValidCut(s, exists_, pieces)
    ensures |ns| > 1 ==> forall pieces :: !IsOnlyCut(s, exists_, pieces)
  {
    hide IsValidCut, Cut, ValidNumbers, Pow2, Join, Split;
    if |ns| == 0 {
      forall pieces ensures !IsValidCut(s, exists_, pieces) {
        NoneCounted(s, parts, exists_, pieces);
      }
    } else {
      CountedIsValid(s, parts, exists_, ns, 0);
      if |ns| == 1 {
        forall pieces | IsValidCut(s, exists_, pieces) ensures pieces == Cut(parts, ns[0]) {
          OneCounted(s, parts, exists_, ns[0], pieces);
        }
      } else {
        forall pieces ensures !IsOnlyCut(s, exists_, pieces) {
          ManyCounted(s, parts, exists_, ns, pieces);
        }
      }
    }
  }

  lemma CutsDiffer(parts: seq<string>, n: nat, m: nat)
    requires parts != [] && n < Pow2(|parts| - 1) && m < Pow2(|parts| - 1) && n != m
    ensures Cut(parts, n) != Cut(parts, m)
  {
    if Cut(parts, n) == Cut(parts, m) {
      CutInjective(parts[0], parts[1..], n, m);
    }
  }
}
