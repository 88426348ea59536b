/**
 esp_console_split_argv: splits a NUL-terminated line into arguments, in the buffer of the line itself.
 */
module SplitArgv {
  import opened Wrappers

  const QUOTE := '\"'
  const ESCAPE := '\\'
  const SPACE := ' '
  const NUL := '\0'

  datatype Mode = Space | Arg | QuotedArg | ArgEscaped | QuotedArgEscaped

  /** What has been read so far: finished arguments and the one under construction. */
  datatype Scan = Scan(mode: Mode, done: seq<string>, cur: string)

  const START := Scan(Space, [], [])

  /** The argument ends here. */
  function EndArg(s: Scan): Scan {
    Scan(Space, s.done + [s.cur], [])
  }

  function Next(s: Scan, c: char): Scan {
    match s.mode
    case Space =>
      if c == SPACE then s
      else if c == QUOTE then s.(mode := QuotedArg)
      else if c == ESCAPE then s.(mode := ArgEscaped)
      else s.(mode := Arg, cur := [c])
    case QuotedArg =>
      if c == QUOTE then EndArg(s)
      else if c == ESCAPE then s.(mode := QuotedArgEscaped)
      else s.(cur := s.cur + [c])
    case Arg =>
      if c == SPACE then EndArg(s)
      else if c == ESCAPE then s.(mode := ArgEscaped)
      else s.(cur := s.cur + [c])
    case _ =>
      s.(mode := if s.mode == ArgEscaped then Arg else QuotedArg,
         cur := if c == ESCAPE || c == QUOTE || c == SPACE then s.cur + [c] else s.cur)
  }

  function Run(s: Scan, text: string): Scan {
    if text == [] then s else Next(Run(s, text[..|text| - 1]), text[|text| - 1])
  }

  /** All arguments of a line; an argument the line ends in counts. */
  function Tokens(text: string): seq<string> {
    var s := Run(START, text);
    if s.mode == Space then s.done else s.done + [s.cur]
  }

  // ---------- what the tokens mean ----------

  lemma {:induction false} RunConcat(s: Scan, a: string, b: string)
    ensures Run(s, a + b) == Run(Run(s, a), b)
    decreases |b|
  {
    if b == [] {
      assert a + b == a;
    } else {
      var front := b[..|b| - 1];
      assert (a + b)[..|a + b| - 1] == a + front;
      RunConcat(s, a, front);
    }
  }

  predicate Special(c: char) {
    c == QUOTE || c == ESCAPE || c == SPACE
  }

  /** A character of an argument as it is written: for itself, or behind a backslash. */
  datatype Piece = Plain(c: char) | Escaped(c: char) {
    function Text(): string {
      if Plain? then [c] else [ESCAPE, c]
    }
    /** A backslash in front of a character that is not special means nothing, and neither does the character. */
    function Meaning(): string {
      if Escaped? && !Special(c) then [] else [c]
    }
  }

  function Texts(ps: seq<Piece>): string {
    if ps == [] then [] else Texts(ps[..|ps| - 1]) + ps[|ps| - 1].Text()
  }

  function Meanings(ps: seq<Piece>): string {
    if ps == [] then [] else Meanings(ps[..|ps| - 1]) + ps[|ps| - 1].Meaning()
  }

  /** Pieces of an unquoted argument: spaces need a backslash, and so does a quote at its beginning. */
  predicate Unquoted(ps: seq<Piece>) {
    && (forall p :: p in ps && p.Plain? ==> p.c != ESCAPE && p.c != SPACE)
    && (ps != [] ==> ps[0] != Plain(QUOTE))
  }

  /** Pieces of a quoted argument: quotes need a backslash. */
  predicate WithinQuotes(ps: seq<Piece>) {
    forall p :: p in ps && p.Plain? ==> p.c != ESCAPE && p.c != QUOTE
  }

  /** What lines are made of: spaces, unquoted arguments with the space that ends them, and arguments in quotes,
      which the closing quote ends. */
  datatype Part = Blank | Word(pieces: seq<Piece>) | InQuotes(pieces: seq<Piece>) {
    predicate Ok() {
      (Word? ==> Unquoted(pieces) && pieces != []) && (InQuotes? ==> WithinQuotes(pieces))
    }
    function Text(): string {
      match this
      case Blank => [SPACE]
      case Word(ps) => Texts(ps) + [SPACE]
      case InQuotes(ps) => [QUOTE] + Texts(ps) + [QUOTE]
    }
    function Args(): seq<string> {
      if Blank? then [] else [Meanings(pieces)]
    }
  }

  /** A line may end inside an argument, and there behind a backslash. */
  datatype Ending =
    | Complete
    | OpenWord(pieces: seq<Piece>, escape: bool)
    | OpenQuotes(pieces: seq<Piece>, escape: bool)
  {
    predicate Ok() {
      (OpenWord? ==> Unquoted(pieces) && (pieces != [] || escape)) && (OpenQuotes? ==> WithinQuotes(pieces))
    }
    function Text(): string {
      match this
      case Complete => []
      case OpenWord(ps, escape) => Texts(ps) + if escape then [ESCAPE] else []
      case OpenQuotes(ps, escape) => [QUOTE] + Texts(ps) + if escape then [ESCAPE] else []
    }
    function Args(): seq<string> {
      if Complete? then [] else [Meanings(pieces)]
    }
  }

  predicate PartsOk(parts: seq<Part>) {
    forall p :: p in parts ==> p.Ok()
  }

  function PartsText(parts: seq<Part>): string {
    if parts == [] then [] else PartsText(parts[..|parts| - 1]) + parts[|parts| - 1].Text()
  }

  function PartsArgs(parts: seq<Part>): seq<string> {
    if parts == [] then [] else PartsArgs(parts[..|parts| - 1]) + parts[|parts| - 1].Args()
  }

  lemma RunTwo(s: Scan, c: char, d: char)
    ensures Run(s, [c]) == Next(s, c)
    ensures Run(s, [c, d]) == Next(Next(s, c), d)
  {
    assert [c][..0] == [];
    assert [c, d][..1] == [c];
  }

  lemma RunPiece(s: Scan, p: Piece)
    requires s.mode == Arg || s.mode == QuotedArg
    requires p.Plain? ==> p.c != ESCAPE && p.c != if s.mode == Arg then SPACE else QUOTE
    ensures Run(s, p.Text()) == s.(cur := s.cur + p.Meaning())
  {
    RunTwo(s, p.c, p.c);
    RunTwo(s, ESCAPE, p.c);
  }

  lemma {:induction false} RunQuotedPieces(done: seq<string>, ps: seq<Piece>)
    requires WithinQuotes(ps)
    ensures Run(Scan(QuotedArg, done, []), Texts(ps)) == Scan(QuotedArg, done, Meanings(ps))
    decreases |ps|
  {
    if ps != [] {
      var front, p := ps[..|ps| - 1], ps[|ps| - 1];
      RunQuotedPieces(done, front);
      RunConcat(Scan(QuotedArg, done, []), Texts(front), p.Text());
      RunPiece(Scan(QuotedArg, done, Meanings(front)), p);
    }
  }

  lemma {:induction false} RunWordPieces(done: seq<string>, ps: seq<Piece>)
    requires Unquoted(ps) && ps != []
    ensures Run(Scan(Space, done, []), Texts(ps)) == Scan(Arg, done, Meanings(ps))
    decreases |ps|
  {
    var s, front, p := Scan(Space, done, []), ps[..|ps| - 1], ps[|ps| - 1];
    if front == [] {
      assert Texts(ps) == p.Text() && Meanings(ps) == p.Meaning();
      RunTwo(s, p.c, p.c);
      RunTwo(s, ESCAPE, p.c);
    } else {
      RunWordPieces(done, front);
      RunConcat(s, Texts(front), p.Text());
      RunPiece(Scan(Arg, done, Meanings(front)), p);
    }
  }

  /** From between arguments an opening quote and the pieces lead into a quoted argument. */
  lemma RunOpenQuotes(done: seq<string>, ps: seq<Piece>)
    requires WithinQuotes(ps)
    ensures Run(Scan(Space, done, []), [QUOTE] + Texts(ps)) == Scan(QuotedArg, done, Meanings(ps))
  {
    RunTwo(Scan(Space, done, []), QUOTE, QUOTE);
    RunQuotedPieces(done, ps);
    RunConcat(Scan(Space, done, []), [QUOTE], Texts(ps));
  }

  lemma RunPart(done: seq<string>, p: Part)
    requires p.Ok()
    ensures Run(Scan(Space, done, []), p.Text()) == Scan(Space, done + p.Args(), [])
  {
    var s := Scan(Space, done, []);
    match p
    case Blank => RunTwo(s, SPACE, SPACE);
    case Word(ps) =>
      RunWordPieces(done, ps);
      RunConcat(s, Texts(ps), [SPACE]);
      RunTwo(Scan(Arg, done, Meanings(ps)), SPACE, SPACE);
    case InQuotes(ps) =>
      RunOpenQuotes(done, ps);
      RunConcat(s, [QUOTE] + Texts(ps), [QUOTE]);
      RunTwo(Scan(QuotedArg, done, Meanings(ps)), QUOTE, QUOTE);
  }

  lemma {:induction false} RunParts(parts: seq<Part>)
    requires PartsOk(parts)
    ensures Run(START, PartsText(parts)) == Scan(Space, PartsArgs(parts), [])
    decreases |parts|
  {
    if parts != [] {
      var front, p := parts[..|parts| - 1], parts[|parts| - 1];
      RunParts(front);
      RunConcat(START, PartsText(front), p.Text());
      RunPart(PartsArgs(front), p);
    }
  }

  lemma RunEnding(done: seq<string>, e: Ending)
    requires e.Ok()
    ensures var s := Run(Scan(Space, done, []), e.Text());
            if e.Complete? then s == Scan(Space, done, []) else s.mode != Space && s.done == done && [s.cur] == e.Args()
  {
    var s := Scan(Space, done, []);
    match e
    case Complete =>
    case OpenWord(ps, escape) =>
      if ps != [] {
        RunWordPieces(done, ps);
      }
      RunConcat(s, Texts(ps), if escape then [ESCAPE] else []);
      RunTwo(Run(s, Texts(ps)), ESCAPE, ESCAPE);
    case OpenQuotes(ps, escape) =>
      RunOpenQuotes(done, ps);
      RunConcat(s, [QUOTE] + Texts(ps), if escape then [ESCAPE] else []);
      RunTwo(Scan(QuotedArg, done, Meanings(ps)), ESCAPE, ESCAPE);
  }

  /** A line is split into what its arguments mean, an unfinished last one included. */
  lemma TokensOf(parts: seq<Part>, e: Ending)
    requires PartsOk(parts) && e.Ok()
    ensures Tokens(PartsText(parts) + e.Text()) == PartsArgs(parts) + e.Args()
  {
    RunParts(parts);
    RunConcat(START, PartsText(parts), e.Text());
    RunEnding(PartsArgs(parts), e);
  }

  lemma TextsSnoc(ps: seq<Piece>, p: Piece)
    ensures Texts(ps + [p]) == Texts(ps) + p.Text()
  {
    assert (ps + [p])[..|ps|] == ps;
  }

  lemma PartsSnoc(parts: seq<Part>, p: Part)
    ensures PartsText(parts + [p]) == PartsText(parts) + p.Text()
    ensures PartsArgs(parts + [p]) == PartsArgs(parts) + p.Args()
    ensures PartsOk(parts) && p.Ok() ==> PartsOk(parts + [p])
  {
    assert (parts + [p])[..|parts|] == parts;
  }

  /** Every line is made of such parts, so TokensOf speaks of all lines. */
  lemma {:induction false} LineParts(text: string) returns (parts: seq<Part>, e: Ending)
    ensures PartsOk(parts) && e.Ok() && text == PartsText(parts) + e.Text()
    decreases |text|
  {
    hide PartsText, PartsOk;
    if text == [] {
      parts, e := [], Complete;
      NoParts();
    } else {
      var n := |text| - 1;
      parts, e := LineParts(text[..n]);
      var added;
      added, e := OneMore(e, text[n]);
      if added.Some? {
        PartsSnoc(parts, added.value);
        parts := parts + [added.value];
      }
      assert text == text[..n] + [text[n]];
    }
  }

  lemma NoParts()
    ensures PartsOk([]) && PartsText([]) == []
  {
  }

  /** One more character ends the part that was open or makes it longer. */
  lemma OneMore(e: Ending, c: char) returns (added: Option<Part>, e': Ending)
    requires e.Ok()
    ensures e'.Ok() && (added.Some? ==> added.value.Ok() && e' == Complete && added.value.Text() == e.Text() + [c])
    ensures added.None? ==> e'.Text() == e.Text() + [c]
  {
    added := None;
    match e
    case Complete =>
      if c == SPACE {
        added, e' := Some(Blank), Complete;
      } else {
        e' := if c == QUOTE then OpenQuotes([], false)
              else if c == ESCAPE then OpenWord([], true)
              else OpenWord([Plain(c)], false);
      }
    case OpenWord(ps, escape) => added, e' := OneMoreInWord(ps, escape, c);
    case OpenQuotes(ps, escape) => added, e' := OneMoreInQuotes(ps, escape, c);
  }

  lemma OneMoreInWord(ps: seq<Piece>, escape: bool, c: char) returns (added: Option<Part>, e': Ending)
    requires OpenWord(ps, escape).Ok()
    ensures e'.Ok() && (added.Some? ==> added == Some(Word(ps)) && e' == Complete && !escape && c == SPACE)
    ensures added.None? ==> e'.Text() == OpenWord(ps, escape).Text() + [c]
  {
    TextsSnoc(ps, Escaped(c));
    TextsSnoc(ps, Plain(c));
    hide Texts;
    added := None;
    if escape {
      e' := OpenWord(ps + [Escaped(c)], false);
    } else if c == SPACE {
      added, e' := Some(Word(ps)), Complete;
    } else {
      e' := if c == ESCAPE then OpenWord(ps, true) else OpenWord(ps + [Plain(c)], false);
    }
  }

  lemma OneMoreInQuotes(ps: seq<Piece>, escape: bool, c: char) returns (added: Option<Part>, e': Ending)
    requires WithinQuotes(ps)
    ensures e'.Ok() && (added.Some? ==> added == Some(InQuotes(ps)) && e' == Complete && !escape && c == QUOTE)
    ensures added.None? ==> e'.Text() == OpenQuotes(ps, escape).Text() + [c]
  {
    TextsSnoc(ps, Escaped(c));
    TextsSnoc(ps, Plain(c));
    hide Texts;
    added := None;
    if escape {
      e' := OpenQuotes(ps + [Escaped(c)], false);
    } else if c == QUOTE {
      added, e' := Some(InQuotes(ps)), Complete;
    } else {
      e' := if c == ESCAPE then OpenQuotes(ps, true) else OpenQuotes(ps + [Plain(c)], false);
    }
  }

  // ---------- writing a line ----------

  /** The pieces to write for an argument: a backslash only where it is needed. */
  function PiecesOf(a: string, quoted: bool): (ps: seq<Piece>)
    ensures |ps| == |a|
  {
    seq(|a|, i requires 0 <= i < |a| =>
      if a[i] == QUOTE || a[i] == ESCAPE || (a[i] == SPACE && !quoted) then Escaped(a[i]) else Plain(a[i]))
  }

  lemma {:induction false} PiecesMean(a: string, quoted: bool)
    ensures Meanings(PiecesOf(a, quoted)) == a
    decreases |a|
  {
    if a != [] {
      var n := |a| - 1;
      PiecesMean(a[..n], quoted);
      assert PiecesOf(a, quoted)[..n] == PiecesOf(a[..n], quoted);
      assert a[..n] + [a[n]] == a;
    }
  }

  /** Arguments one behind the other: in quotes when `quoted` says so or when empty. */
  function PartsOf(args: seq<string>, quoted: seq<bool>): seq<Part>
    requires |args| == |quoted|
  {
    if args == [] then []
    else
      var n := |args| - 1;
      PartsOf(args[..n], quoted[..n])
      + if quoted[n] || args[n] == [] then [InQuotes(PiecesOf(args[n], true)), Blank]
        else [Word(PiecesOf(args[n], false))]
  }

  lemma PiecesOk(a: string)
    ensures WithinQuotes(PiecesOf(a, true)) && Unquoted(PiecesOf(a, false))
  {
  }

  lemma {:induction false} PartsOfMean(args: seq<string>, quoted: seq<bool>)
    requires |args| == |quoted|
    ensures PartsOk(PartsOf(args, quoted)) && PartsArgs(PartsOf(args, quoted)) == args
    decreases |args|
  {
    hide PartsOk, PartsArgs;
    if args == [] {
      NoArgs();
    } else {
      var n := |args| - 1;
      PartsOfMean(args[..n], quoted[..n]);
      assert args[..n] + [args[n]] == args;
      OneArg(PartsOf(args[..n], quoted[..n]), args[n]);
    }
  }

  lemma NoArgs()
    ensures PartsOk([]) && PartsArgs([]) == []
  {
  }

  lemma OneArg(front: seq<Part>, a: string)
    requires PartsOk(front)
    ensures var parts := front + [InQuotes(PiecesOf(a, true)), Blank];
            PartsOk(parts) && PartsArgs(parts) == PartsArgs(front) + [a]
    ensures var parts := front + [Word(PiecesOf(a, false))];
            a != [] ==> PartsOk(parts) && PartsArgs(parts) == PartsArgs(front) + [a]
  {
    hide PartsOk, PartsArgs, PiecesOf, Meanings, WithinQuotes, Unquoted;
    var w := InQuotes(PiecesOf(a, true));
    assert front + [w, Blank] == (front + [w]) + [Blank];
    PiecesOk(a);
    PiecesMean(a, true);
    PiecesMean(a, false);
    PartsSnoc(front, w);
    PartsSnoc(front + [w], Blank);
    PartsSnoc(front, Word(PiecesOf(a, false)));
  }

  /** Round trip: every list of arguments can be written as a line, quoting whichever of them one likes,
      and is what the line is split into. */
  lemma LineSplits(args: seq<string>, quoted: seq<bool>)
    requires |args| == |quoted|
    ensures Tokens(PartsText(PartsOf(args, quoted))) == args
  {
    PartsOfMean(args, quoted);
    RunParts(PartsOf(args, quoted));
  }

  // ---------- the in-place splitter ----------

  /** The C string at p. */
  function CString(m: string, p: nat): (s: string)
    ensures p + |s| <= |m| || s == []
    ensures NUL !in s
    decreases |m| - p
  {
    if p >= |m| || m[p] == NUL then [] else [m[p]] + CString(m, p + 1)
  }

  lemma {:induction false} CStringAt(m: string, p: nat, s: string)
    requires p + |s| < |m| && m[p..p + |s|] == s && m[p + |s|] == NUL && NUL !in s
    ensures CString(m, p) == s
    decreases |s|
  {
    if s != [] {
      assert m[p] == s[0];
      assert m[p + 1..p + 1 + |s[1..]|] == s[1..];
      CStringAt(m, p + 1, s[1..]);
    }
  }

  lemma {:induction false} CStringIs(m: string, p: nat)
    requires p <= |m| && NUL in m[p..]
    ensures var s := CString(m, p); p + |s| < |m| && m[p..p + |s|] == s && m[p + |s|] == NUL
    decreases |m| - p
  {
    assert m[p..] == [m[p]] + m[p + 1..];
    if m[p] != NUL {
      CStringIs(m, p + 1);
      var rest := CString(m, p + 1);
      assert CString(m, p) == [m[p]] + rest;
      assert m[p..p + 1 + |rest|] == [m[p]] + m[p + 1..p + 1 + |rest|];
    }
  }

  /** Finished arguments as they lie in the buffer. */
  function Flat(args: seq<string>): string {
    if args == [] then [] else Flat(args[..|args| - 1]) + args[|args| - 1] + [NUL]
  }

  lemma FlatSnoc(args: seq<string>, a: string)
    ensures Flat(args + [a]) == Flat(args) + a + [NUL]
  {
    assert (args + [a])[..|args|] == args;
  }

  /** Where argument k lies, and for k = |args| where they end. */
  function Offset(args: seq<string>, k: nat): nat
    requires k <= |args|
  {
    if k == 0 then 0 else Offset(args, k - 1) + |args[k - 1]| + 1
  }

  lemma {:induction false} OffsetSnoc(args: seq<string>, a: string, k: nat)
    requires k <= |args|
    ensures Offset(args + [a], k) == Offset(args, k)
    decreases k
  {
    if k > 0 {
      OffsetSnoc(args, a, k - 1);
    }
  }

  lemma {:induction false} FlatLength(args: seq<string>)
    ensures |Flat(args)| == Offset(args, |args|)
    decreases |args|
  {
    if args != [] {
      var n := |args| - 1;
      FlatLength(args[..n]);
      OffsetSnoc(args[..n], args[n], n);
      assert args[..n] + [args[n]] == args;
    }
  }

  lemma {:induction false} FlatAt(args: seq<string>, k: nat)
    requires k < |args|
    ensures Placed(Flat(args), Offset(args, k), args[k])
    decreases |args|
  {
    var n := |args| - 1;
    var front, a := args[..n], args[n];
    assert front + [a] == args;
    OffsetSnoc(front, a, k);
    if k < n {
      FlatAt(front, k);
      PlacedLonger(Flat(front), Flat(args), Offset(args, k), args[k]);
    } else {
      FlatLength(front);
    }
  }

  /** a lies at p, with its NUL. */
  ghost predicate Placed(m: string, p: nat, a: string) {
    p + |a| < |m| && m[p..p + |a|] == a && m[p + |a|] == NUL
  }

  lemma PlacedLonger(m: string, longer: string, p: nat, a: string)
    requires Placed(m, p, a) && m <= longer
    ensures Placed(longer, p, a)
  {
    assert longer[..|m|] == m;
    assert longer[p..p + |a|] == m[p..p + |a|];
  }

  /** The finished arguments start where argv says. */
  ghost predicate Recorded(argv: seq<Option<nat>>, done: seq<string>) {
    && |done| < |argv|
    && forall j :: 0 <= j < |done| ==> argv[j] == Some(Offset(done, j)) && NUL !in done[j]
  }

  /** An argument under construction starts behind the finished ones. */
  ghost predicate Started(s: Scan, start: nat) {
    && (s.mode == Space ==> s.cur == []) && NUL !in s.cur
    && (s.mode != Space ==> start == Offset(s.done, |s.done|))
  }

  /** What the buffer holds up to the write pointer. */
  ghost function Output(s: Scan): string {
    Flat(s.done) + s.cur
  }

  ghost function AsString(c: Option<char>): string {
    if c.None? then [] else [c.value]
  }

  /** argv[0..argc) are the C strings `args`, and a null follows. */
  ghost predicate IsArgv(m: string, argv: seq<Option<nat>>, args: seq<string>) {
    && |args| < |argv| && argv[|args|] == None
    && forall k :: 0 <= k < |args| ==> argv[k].Some? && CString(m, argv[k].value) == args[k]
  }

  lemma LaidString(m: string, args: seq<string>, k: nat)
    requires Flat(args) <= m && k < |args| && NUL !in args[k]
    ensures CString(m, Offset(args, k)) == args[k]
  {
    FlatAt(args, k);
    PlacedLonger(Flat(args), m, Offset(args, k), args[k]);
    CStringAt(m, Offset(args, k), args[k]);
  }

  lemma LaidStrings(m: string, argv: seq<Option<nat>>, args: seq<string>)
    requires Flat(args) <= m && Recorded(argv, args) && argv[|args|] == None
    ensures IsArgv(m, argv, args)
  {
    forall k | 0 <= k < |args| ensures argv[k].Some? && CString(m, argv[k].value) == args[k] {
      LaidString(m, args, k);
    }
  }

  /** Finished arguments never change again. */
  lemma {:induction false} DoneGrows(s: Scan, text: string)
    ensures s.done <= Run(s, text).done
    decreases |text|
  {
    if text != [] {
      DoneGrows(s, text[..|text| - 1]);
    }
  }

  /** The arguments found when the scan stops early are the first of all arguments. */
  lemma FirstTokens(text: string, k: nat)
    requires k <= |text|
    ensures Run(START, text[..k]).done <= Tokens(text)
  {
    assert text[..k] + text[k..] == text;
    RunConcat(START, text[..k], text[k..]);
    DoneGrows(Run(START, text[..k]), text[k..]);
  }

  /** The switch of the loop: what one input character does, and what is to be written for it. */
  method Classify(argv: array<Option<nat>>, ghost s: Scan, mode: Mode, argc: nat, start: nat, out: nat, c: char)
    returns (mode': Mode, argc': nat, start': nat, charOut: Option<char>)
    requires s.mode == mode && |s.done| == argc && argc + 1 < argv.Length && c != NUL
    requires Recorded(argv[..], s.done) && Started(s, start) && out == |Output(s)|
    modifies argv
    ensures Next(s, c).mode == mode' && |Next(s, c).done| == argc' < argv.Length && (argc' == argc || mode' == Space)
    ensures Recorded(argv[..], Next(s, c).done) && Started(Next(s, c), start')
    ensures Output(Next(s, c)) == Output(s) + AsString(charOut)
  {
    hide Flat, Offset, Recorded;
    mode', argc', start', charOut := mode, argc, start, None;
    FlatLength(s.done);
    match mode {
      case Space =>
        if c == SPACE {
        } else if c == QUOTE {
          start', mode' := out, QuotedArg;
        } else if c == ESCAPE {
          start', mode' := out, ArgEscaped;
        } else {
          start', mode', charOut := out, Arg, Some(c);
        }
      case QuotedArg =>
        if c == QUOTE {
          charOut := EndArgInPlace(argv, s, argc, start);
          mode', argc' := Space, argc + 1;
        } else if c == ESCAPE {
          mode' := QuotedArgEscaped;
        } else {
          charOut := Some(c);
        }
      case Arg =>
        if c == SPACE {
          charOut := EndArgInPlace(argv, s, argc, start);
          mode', argc' := Space, argc + 1;
        } else if c == ESCAPE {
          mode' := ArgEscaped;
        } else {
          charOut := Some(c);
        }
      case _ =>
        if c == ESCAPE || c == QUOTE || c == SPACE {
          charOut := Some(c);
        }
        mode' := if mode == ArgEscaped then Arg else QuotedArg;
    }
  }

  /** END_ARG: records where the argument starts; its terminating NUL is what is to be written. */
  method EndArgInPlace(argv: array<Option<nat>>, ghost s: Scan, argc: nat, start: nat) returns (charOut: Option<char>)
    requires argc == |s.done| && argc + 1 < argv.Length && start == Offset(s.done, argc) && NUL !in s.cur
    requires Recorded(argv[..], s.done)
    modifies argv
    ensures charOut == Some(NUL) && Output(EndArg(s)) == Output(s) + [NUL]
    ensures Recorded(argv[..], EndArg(s).done)
  {
    argv[argc] := Some(start);
    charOut := Some(NUL);
    FlatSnoc(s.done, s.cur);
    forall j | 0 <= j <= argc ensures Offset(s.done + [s.cur], j) == Offset(s.done, j) {
      OffsetSnoc(s.done, s.cur, j);
    }
  }

  /** The body of the loop: at most one character written, not beyond the one read. */
  method Feed(line: array<char>, argv: array<Option<nat>>, ghost s: Scan, mode: Mode, argc: nat, start: nat,
              out: nat, c: char)
    returns (mode': Mode, argc': nat, start': nat, out': nat)
    requires s.mode == mode && |s.done| == argc && argc + 1 < argv.Length && c != NUL
    requires Recorded(argv[..], s.done) && Started(s, start)
    requires out < line.Length && line[..out] == Output(s)
    modifies line, argv
    ensures Next(s, c).mode == mode' && |Next(s, c).done| == argc' && (argc' == argc || mode' == Space)
    ensures Recorded(argv[..], Next(s, c).done) && Started(Next(s, c), start')
    ensures out <= out' <= out + 1 && line[..out'] == Output(Next(s, c))
    ensures forall i :: out < i < line.Length ==> line[i] == old(line[i])
  {
    var charOut;
    mode', argc', start', charOut := Classify(argv, s, mode, argc, start, out, c);
    out' := out;
    if charOut.Some? {
      line[out] := charOut.value;
      out' := out + 1;
    }
    assert line[..out'] == Output(s) + AsString(charOut);
  }

  /** The end of the function: terminates and records an unfinished last argument, and adds the null. */
  method Conclude(line: array<char>, argv: array<Option<nat>>, ghost s: Scan, mode: Mode, argc0: nat, start: nat,
                  out: nat)
    returns (argc: nat)
    requires s.mode == mode && |s.done| == argc0 < argv.Length && (argc0 == argv.Length - 1 ==> mode == Space)
    requires Recorded(argv[..], s.done) && Started(s, start)
    requires out < line.Length && line[..out] == Output(s)
    modifies line, argv
    ensures var args := if mode == Space then s.done else s.done + [s.cur];
            argc == |args| && IsArgv(line[..], argv[..], args)
  {
    line[out] := NUL;
    assert line[..out + 1] == Output(s) + [NUL];
    argc := argc0;
    if mode != Space && argc < argv.Length - 1 {
      var _ := EndArgInPlace(argv, s, argc, start);
      argc := argc + 1;
      assert line[..out + 1] == Flat(EndArg(s).done);
      AddNull(line, argv, EndArg(s).done, argc);
    } else {
      assert line[..out] == Flat(s.done);
      AddNull(line, argv, s.done, argc);
    }
  }

  method AddNull(line: array<char>, argv: array<Option<nat>>, ghost args: seq<string>, argc: nat)
    requires Flat(args) <= line[..] && Recorded(argv[..], args) && argc == |args|
    modifies argv
    ensures IsArgv(line[..], argv[..], args)
  {
    argv[argc] := None;
    LaidStrings(line[..], argv[..], args);
  }

  /** Before the first character. */
  lemma ScanStarts(line: array<char>, argv: array<Option<nat>>, text: string)
    requires argv.Length >= 1
    ensures START == Run(START, text[..0]) && START.mode == Space && START.done == []
    ensures Recorded(argv[..], START.done) && Started(START, 0) && line[..0] == Output(START)
  {
  }

  /** The loop: stops at the end of the line or when only the place for the null is left. */
  method ScanLine(line: array<char>, argv: array<Option<nat>>, ghost text: string)
    returns (mode: Mode, argc: nat, start: nat, out: nat, ghost s: Scan, ghost read: nat)
    requires argv.Length >= 1 && |text| < line.Length && line[..|text|] == text && line[|text|] == NUL && NUL !in text
    modifies line, argv
    ensures out <= read <= |text| && s == Run(START, text[..read])
    ensures s.mode == mode && |s.done| == argc < argv.Length
    ensures Recorded(argv[..], s.done) && Started(s, start) && line[..out] == Output(s)
    ensures if argc == argv.Length - 1 then mode == Space else read == |text|
  {
    hide *;
    ghost var before := line[..];
    var i := 0;
    mode, argc, start, out, s := Space, 0, 0, 0, START;
    ScanStarts(line, argv, text);
    while argc < argv.Length - 1
      invariant out <= i <= |text| && s == Run(START, text[..i])
      invariant s.mode == mode && |s.done| == argc < argv.Length
      invariant Recorded(argv[..], s.done) && Started(s, start) && line[..out] == Output(s)
      invariant argc == argv.Length - 1 ==> mode == Space
      invariant forall j :: i <= j < line.Length ==> line[j] == before[j]
      decreases |text| - i
    {
      var c := line[i];
      if c == NUL {
        break;
      }
      Extends(before, text, i);
      mode, argc, start, out := Feed(line, argv, s, mode, argc, start, out, c);
      s := Next(s, c);
      i := i + 1;
    }
    read := i;
  }

  /** esp_console_split_argv. The buffer is overwritten, the write position never passes the read position,
      and argv ends up with the first argv.Length - 1 arguments of the line, then a null. */
  method Split(line: array<char>, argv: array<Option<nat>>) returns (argc: nat)
    requires argv.Length >= 1 && NUL in line[..]
    modifies line, argv
    ensures var all := Tokens(old(CString(line[..], 0)));
            && argc == (if |all| < argv.Length then |all| else argv.Length - 1)
            && IsArgv(line[..], argv[..], all[..argc])
  {
    ghost var text := CString(line[..], 0);
    assert line[..][0..] == line[..];
    CStringIs(line[..], 0);
    assert line[..][..|text|] == line[..|text|];
    var mode, start, out;
    ghost var s, read;
    mode, argc, start, out, s, read := ScanLine(line, argv, text);
    FirstTokens(text, read);
    assert read == |text| ==> text[..read] == text;
    argc := Conclude(line, argv, s, mode, argc, start, out);
    assert (if s.mode == Space then s.done else s.done + [s.cur]) == Tokens(text)[..argc];
  }

  lemma Extends(m: string, text: string, i: nat)
    requires |text| < |m| && m[..|text|] == text && m[|text|] == NUL && i <= |text| && m[i] != NUL
    ensures i < |text| && m[i] == text[i] && text[..i + 1] == text[..i] + [m[i]]
    ensures Run(START, text[..i + 1]) == Next(Run(START, text[..i]), m[i])
  {
    assert text[..i + 1][..i] == text[..i];
  }
}
