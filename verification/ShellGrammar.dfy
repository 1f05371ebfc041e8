/** shell_parse.c: what a command line means, and that every way of quoting a plan is read back. */
module ShellGrammar {
  import opened Bytes

  const LINE_MAX := 128
  const ARGS_MAX := 64
  const STAGES_MAX := 2
  const REDIRECTS_MAX := 8

  const TAB: Byte := 9
  const LF: Byte := 10
  const CR: Byte := 13
  const SPACE: Byte := 32
  const DQUOTE: Byte := 34
  const DOLLAR: Byte := 36
  const AMPERSAND: Byte := 38
  const QUOTE: Byte := 39
  const OPEN: Byte := 40
  const CLOSE: Byte := 41
  const SEMICOLON: Byte := 59
  const LESS: Byte := 60
  const GREATER: Byte := 62
  const BACKSLASH: Byte := 92
  const BACKTICK: Byte := 96
  const BAR: Byte := 124

  predicate IsSpace(c: Byte) {
    c == SPACE || c == TAB
  }

  predicate IsOperator(c: Byte) {
    c == BAR || c == LESS || c == GREATER || c == AMPERSAND || c == SEMICOLON || c == OPEN || c == CLOSE
  }

  predicate IsDigit(c: Byte) {
    48 <= c <= 57
  }

  /** What a backslash still escapes between double quotes. */
  predicate Special(c: Byte) {
    c == DQUOTE || c == BACKSLASH || c == DOLLAR || c == BACKTICK
  }

  datatype Error =
    | Multiline | TooLong | UnsupportedOperator | UnfinishedEscape | UnclosedQuote | DescriptorRedirection
    | TooManyArguments | MissingBeforePipe | TooManyStages | TooManyRedirections | MissingPath
    | MissingCommand | EmptyName

  datatype Kind = Input | Output | Append

  datatype Token = End | Word(text: seq<Byte>) | Pipe | Redirect(kind: Kind) | Bad(error: Error)

  datatype Redirection = Redirection(kind: Kind, path: seq<Byte>)

  datatype Command = Command(argv: seq<seq<Byte>>, redirects: seq<Redirection>)

  /** `commands` is empty for a blank line. */
  datatype Plan = Plan(commands: seq<Command>, compound: bool)

  datatype Result = Ok(plan: Plan) | Err(error: Error)

  // ------------------------------------------------------------ words

  datatype Scan = Done(next: nat, text: seq<Byte>) | Fail(error: Error)

  /** The loop of next() over one word. `quote` is 0 outside quotes; `number` says that only
      unquoted digits were seen. */
  function ScanWord(line: seq<Byte>, p: nat, quote: Byte, number: bool, acc: seq<Byte>): (r: Scan)
    requires p <= |line|
    ensures r.Done? ==> p <= r.next <= |line|
    ensures r.Done? && quote == 0 && p < |line| && !IsSpace(line[p]) && !IsOperator(line[p]) ==> p < r.next
    decreases |line| - p
  {
    if p == |line| || (quote == 0 && (IsSpace(line[p]) || IsOperator(line[p]))) then
      if quote != 0 then Fail(UnclosedQuote)
      else if number && p < |line| && (line[p] == LESS || line[p] == GREATER) then Fail(DescriptorRedirection)
      else Done(p, acc)
    else
      var c := line[p];
      if quote == 0 && (c == QUOTE || c == DQUOTE) then ScanWord(line, p + 1, c, false, acc)
      else if quote != 0 && c == quote then ScanWord(line, p + 1, 0, number, acc)
      else if c == BACKSLASH && quote != QUOTE then
        if p + 1 == |line| then Fail(UnfinishedEscape)
        else if quote == DQUOTE && !Special(line[p + 1]) then ScanWord(line, p + 1, quote, false, acc + [c])
        else ScanWord(line, p + 2, quote, false, acc + [line[p + 1]])
      else ScanWord(line, p + 1, quote, number && IsDigit(c), acc + [c])
  }

  function SkipSpace(line: seq<Byte>, p: nat): (r: nat)
    requires p <= |line|
    ensures p <= r <= |line| && (r < |line| ==> !IsSpace(line[r]))
    decreases |line| - p
  {
    if p < |line| && IsSpace(line[p]) then SkipSpace(line, p + 1) else p
  }

  /** next(): a token, and where the line goes on. */
  function NextToken(line: seq<Byte>, p: nat): (r: (Token, nat))
    requires p <= |line|
    ensures p <= r.1 <= |line|
    ensures !r.0.End? && !r.0.Bad? ==> p < r.1
  {
    var q := SkipSpace(line, p);
    if q == |line| then (End, p)
    else if IsOperator(line[q]) then
      var c := line[q];
      var doubled := q + 1 < |line| && line[q + 1] == c;
      if c == GREATER && doubled then (Redirect(Append), q + 2)
      else if (c != BAR && c != LESS && c != GREATER) || doubled then (Bad(UnsupportedOperator), p)
      else (if c == BAR then Pipe else if c == LESS then Redirect(Input) else Redirect(Output), q + 1)
    else
      match ScanWord(line, q, 0, true, [])
      case Fail(e) => (Bad(e), p)
      case Done(next, text) => (Word(text), next)
  }

  // ------------------------------------------------------------ the plan

  /** The commands read so far; the last one is being built. */
  datatype Building = Building(commands: seq<Command>, compound: bool)

  const NOTHING := Building([Command([], [])], false)

  function Last(b: Building): Command
    requires b.commands != []
  {
    b.commands[|b.commands| - 1]
  }

  function WithLast(b: Building, c: Command): (r: Building)
    requires b.commands != []
    ensures |r.commands| == |b.commands|
  {
    b.(commands := b.commands[..|b.commands| - 1] + [c])
  }

  datatype Step = More(b: Building) | Stop(error: Error)

  function AddWord(b: Building, text: seq<Byte>): (s: Step)
    requires b.commands != []
    ensures s.More? ==> s.b.commands != []
  {
    if |Last(b).argv| == ARGS_MAX then Stop(TooManyArguments)
    else More(WithLast(b, Last(b).(argv := Last(b).argv + [text])))
  }

  function AddPipe(b: Building): (s: Step)
    requires b.commands != []
    ensures s.More? ==> s.b.commands != []
  {
    if Last(b).argv == [] then Stop(MissingBeforePipe)
    else if |b.commands| == STAGES_MAX then Stop(TooManyStages)
    else More(Building(b.commands + [Command([], [])], true))
  }

  function AddRedirect(b: Building, kind: Kind, target: Token): (s: Step)
    requires b.commands != []
    ensures s.More? ==> s.b.commands != []
  {
    match target
    case Bad(e) => Stop(e)
    case Word(text) => More(WithLast(b, Last(b).(redirects := Last(b).redirects + [Redirection(kind, text)])).(compound := true))
    case _ => Stop(MissingPath)
  }

  /** The checks after the last token. */
  function Close(b: Building): Result
    requires b.commands != []
  {
    if b.commands[0].argv == [] && !b.compound then Ok(Plan([], false))
    else CheckNames(b, 0)
  }

  function CheckNames(b: Building, i: nat): Result
    requires i <= |b.commands|
    decreases |b.commands| - i
  {
    if i == |b.commands| then Ok(Plan(b.commands, b.compound))
    else if b.commands[i].argv == [] then Err(MissingCommand)
    else if b.commands[i].argv[0] == [] then Err(EmptyName)
    else CheckNames(b, i + 1)
  }

  function ParseFrom(line: seq<Byte>, p: nat, b: Building): Result
    requires p <= |line| && b.commands != []
    decreases |line| - p
  {
    var (token, q) := NextToken(line, p);
    match token
    case End => Close(b)
    case Bad(e) => Err(e)
    case Word(text) =>
      (match AddWord(b, text)
       case Stop(e) => Err(e)
       case More(c) => ParseFrom(line, q, c))
    case Pipe =>
      (match AddPipe(b)
       case Stop(e) => Err(e)
       case More(c) => ParseFrom(line, q, c))
    case Redirect(kind) =>
      if |Last(b).redirects| == REDIRECTS_MAX then Err(TooManyRedirections)
      else
        var (target, q1) := NextToken(line, q);
        match AddRedirect(b, kind, target)
        case Stop(e) => Err(e)
        case More(c) => ParseFrom(line, q1, c)
  }

  /** The line-length and line-break checks: which comes first decides the error. */
  function CheckLine(line: seq<Byte>, p: nat): (e: seq<Error>)
    requires p <= |line|
    ensures |e| <= 1
    ensures e == [] && p < LINE_MAX ==> |line| < LINE_MAX
    decreases |line| - p
  {
    if p == |line| then []
    else if line[p] == LF || line[p] == CR then [Multiline]
    else if p + 1 == LINE_MAX then [TooLong]
    else CheckLine(line, p + 1)
  }

  /** shell_parse. The line has no NUL. */
  function Parse(line: seq<Byte>): Result {
    var e := CheckLine(line, 0);
    if e != [] then Err(e[0]) else ParseFrom(line, 0, NOTHING)
  }

  // ------------------------------------------------------------ ways of writing a word

  /** A bare character, a backslashed one, or a quoted run of them. */
  datatype Piece = Bare(c: Byte) | Escaped(c: Byte) | Single(s: seq<Byte>) | Double(s: seq<Byte>)

  /** A character that a command line can hold. */
  predicate Plain(c: Byte) {
    c != 0 && c != LF && c != CR
  }

  predicate AllPlain(s: seq<Byte>) {
    forall i :: 0 <= i < |s| ==> Plain(s[i])
  }

  predicate PieceOk(p: Piece) {
    match p
    case Bare(c) => Plain(c) && !IsSpace(c) && !IsOperator(c) && c != QUOTE && c != DQUOTE && c != BACKSLASH
    case Escaped(c) => Plain(c)
    case Single(s) => AllPlain(s) && forall i :: 0 <= i < |s| ==> s[i] != QUOTE
    case Double(s) => AllPlain(s)
  }

  function Meaning(p: Piece): seq<Byte> {
    match p
    case Bare(c) => [c]
    case Escaped(c) => [c]
    case Single(s) => s
    case Double(s) => s
  }

  function Backslashed(s: seq<Byte>): seq<Byte> {
    if s == [] then [] else (if Special(s[0]) then [BACKSLASH, s[0]] else [s[0]]) + Backslashed(s[1..])
  }

  function Write(p: Piece): seq<Byte> {
    match p
    case Bare(c) => [c]
    case Escaped(c) => [BACKSLASH, c]
    case Single(s) => [QUOTE] + s + [QUOTE]
    case Double(s) => [DQUOTE] + Backslashed(s) + [DQUOTE]
  }

  predicate WordOk(w: seq<Piece>) {
    w != [] && forall i :: 0 <= i < |w| ==> PieceOk(w[i])
  }

  function Means(w: seq<Piece>): seq<Byte> {
    if w == [] then [] else Meaning(w[0]) + Means(w[1..])
  }

  function WriteWord(w: seq<Piece>): seq<Byte> {
    if w == [] then [] else Write(w[0]) + WriteWord(w[1..])
  }

  /** `text` stands in the line at `p`. */
  predicate At(line: seq<Byte>, p: nat, text: seq<Byte>) {
    p + |text| <= |line| && line[p..p + |text|] == text
  }

  lemma AtSplit(line: seq<Byte>, p: nat, x: seq<Byte>, y: seq<Byte>)
    requires At(line, p, x + y)
    ensures At(line, p, x) && At(line, p + |x|, y)
  {
    assert line[p..p + |x|] == line[p..p + |x + y|][..|x|];
    assert line[p + |x|..p + |x| + |y|] == line[p..p + |x + y|][|x|..];
  }

  lemma AtFirst(line: seq<Byte>, p: nat, text: seq<Byte>)
    requires At(line, p, text) && text != []
    ensures p < |line| && line[p] == text[0] && At(line, p + 1, text[1..])
  {
    assert text == [text[0]] + text[1..];
    AtSplit(line, p, [text[0]], text[1..]);
    assert line[p..p + 1][0] == text[0];
  }

  /** Inside single quotes every character stands for itself. */
  lemma {:induction false} ScanSingle(line: seq<Byte>, p: nat, acc: seq<Byte>, s: seq<Byte>)
    requires At(line, p, s + [QUOTE]) && forall i :: 0 <= i < |s| ==> s[i] != QUOTE
    ensures ScanWord(line, p, QUOTE, false, acc) == ScanWord(line, p + |s| + 1, 0, false, acc + s)
    decreases |s|
  {
    AtFirst(line, p, s + [QUOTE]);
    if s == [] {
      assert acc + s == acc;
    } else {
      assert (s + [QUOTE])[1..] == s[1..] + [QUOTE];
      ScanSingle(line, p + 1, acc + [s[0]], s[1..]);
      assert acc + [s[0]] + s[1..] == acc + s;
    }
  }

  /** Inside double quotes, backslashed specials stand for themselves. */
  lemma {:induction false} ScanDouble(line: seq<Byte>, p: nat, acc: seq<Byte>, s: seq<Byte>)
    requires At(line, p, Backslashed(s) + [DQUOTE])
    ensures ScanWord(line, p, DQUOTE, false, acc) == ScanWord(line, p + |Backslashed(s)| + 1, 0, false, acc + s)
    decreases |s|
  {
    AtFirst(line, p, Backslashed(s) + [DQUOTE]);
    if s == [] {
      assert acc + s == acc;
    } else {
      var one := if Special(s[0]) then [BACKSLASH, s[0]] else [s[0]];
      assert Backslashed(s) + [DQUOTE] == one + (Backslashed(s[1..]) + [DQUOTE]);
      AtSplit(line, p, one, Backslashed(s[1..]) + [DQUOTE]);
      assert line[p..p + |one|] == one;
      if Special(s[0]) {
        assert line[p + 1] == one[1];
      }
      ScanDouble(line, p + |one|, acc + [s[0]], s[1..]);
      assert acc + [s[0]] + s[1..] == acc + s;
    }
  }

  /** After one piece the scan goes on outside quotes, with the piece's meaning added. */
  lemma ScanPiece(line: seq<Byte>, p: nat, number: bool, acc: seq<Byte>, piece: Piece) returns (still: bool)
    requires PieceOk(piece) && At(line, p, Write(piece))
    ensures ScanWord(line, p, 0, number, acc) == ScanWord(line, p + |Write(piece)|, 0, still, acc + Meaning(piece))
  {
    AtFirst(line, p, Write(piece));
    still := false;
    match piece
    case Bare(c) =>
      still := number && IsDigit(c);
    case Escaped(c) =>
      AtFirst(line, p + 1, Write(piece)[1..]);
    case Single(s) =>
      assert Write(piece)[1..] == s + [QUOTE];
      ScanSingle(line, p + 1, acc, s);
    case Double(s) =>
      assert Write(piece)[1..] == Backslashed(s) + [DQUOTE];
      ScanDouble(line, p + 1, acc, s);
  }

  lemma {:induction false} ScanPieces(line: seq<Byte>, p: nat, number: bool, acc: seq<Byte>, w: seq<Piece>) returns (still: bool)
    requires (forall i :: 0 <= i < |w| ==> PieceOk(w[i])) && At(line, p, WriteWord(w))
    ensures ScanWord(line, p, 0, number, acc) == ScanWord(line, p + |WriteWord(w)|, 0, still, acc + Means(w))
    decreases |w|
  {
    hide ScanWord, Write, Meaning, PieceOk;
    if w == [] {
      assert acc + Means(w) == acc;
      return number;
    }
    AtSplit(line, p, Write(w[0]), WriteWord(w[1..]));
    still := ScanPiece(line, p, number, acc, w[0]);
    still := ScanPieces(line, p + |Write(w[0])|, still, acc + Meaning(w[0]), w[1..]);
    assert acc + Meaning(w[0]) + Means(w[1..]) == acc + Means(w);
  }

  lemma WordStart(w: seq<Piece>)
    requires WordOk(w)
    ensures WriteWord(w) != [] && !IsSpace(WriteWord(w)[0]) && !IsOperator(WriteWord(w)[0])
  {
    assert PieceOk(w[0]);
  }

  lemma NextEnd(line: seq<Byte>, p: nat)
    requires p <= |line| && SkipSpace(line, p) == |line|
    ensures NextToken(line, p) == (End, p)
  {
  }

  lemma NextOperator(line: seq<Byte>, p: nat)
    requires p <= |line| && SkipSpace(line, p) < |line| && IsOperator(line[SkipSpace(line, p)])
    ensures var q := SkipSpace(line, p); var c := line[q]; var doubled := q + 1 < |line| && line[q + 1] == c;
      NextToken(line, p) ==
        if c == GREATER && doubled then (Redirect(Append), q + 2)
        else if (c != BAR && c != LESS && c != GREATER) || doubled then (Bad(UnsupportedOperator), p)
        else (if c == BAR then Pipe else if c == LESS then Redirect(Input) else Redirect(Output), q + 1)
  {
  }

  lemma NextWord(line: seq<Byte>, p: nat)
    requires p <= |line| && SkipSpace(line, p) < |line| && !IsOperator(line[SkipSpace(line, p)])
    ensures var s := ScanWord(line, SkipSpace(line, p), 0, true, []);
      NextToken(line, p) == if s.Fail? then (Bad(s.error), p) else (Word(s.text), s.next)
  {
  }

  lemma ScanEnd(line: seq<Byte>, p: nat, number: bool, acc: seq<Byte>)
    requires p < |line| && line[p] == SPACE
    ensures ScanWord(line, p, 0, number, acc) == Done(p, acc)
  {
  }

  lemma NotSpace(line: seq<Byte>, p: nat)
    requires p < |line| && !IsSpace(line[p])
    ensures SkipSpace(line, p) == p
  {
  }

  /** However a word is quoted, next() returns what it means. */
  lemma TokenOfWord(line: seq<Byte>, p: nat, w: seq<Piece>)
    requires WordOk(w) && At(line, p, WriteWord(w) + [SPACE])
    ensures NextToken(line, p) == (Word(Means(w)), p + |WriteWord(w)|)
  {
    hide ScanWord, NextToken, WriteWord, Means, At, IsSpace, IsOperator, SkipSpace;
    AtSplit(line, p, WriteWord(w), [SPACE]);
    AtFirst(line, p + |WriteWord(w)|, [SPACE]);
    WordStart(w);
    AtFirst(line, p, WriteWord(w));
    NotSpace(line, p);
    NextWord(line, p);
    var still := ScanPieces(line, p, true, [], w);
    assert [] + Means(w) == Means(w);
    ScanEnd(line, p + |WriteWord(w)|, still, Means(w));
  }

  lemma SkipOne(line: seq<Byte>, p: nat)
    requires p < |line| && line[p] == SPACE
    ensures NextToken(line, p).0 == NextToken(line, p + 1).0
    ensures !NextToken(line, p).0.End? && !NextToken(line, p).0.Bad? ==> NextToken(line, p).1 == NextToken(line, p + 1).1
  {
  }

  // ------------------------------------------------------------ ways of writing a line

  datatype Item = Argument(w: seq<Piece>) | Redirected(kind: Kind, w: seq<Piece>) | Piped

  predicate ItemOk(i: Item) {
    i.Piped? || WordOk(i.w)
  }

  function Arrow(kind: Kind): seq<Byte> {
    match kind
    case Input => [LESS]
    case Output => [GREATER]
    case Append => [GREATER, GREATER]
  }

  function WriteItem(i: Item): seq<Byte> {
    match i
    case Argument(w) => WriteWord(w) + [SPACE]
    case Redirected(kind, w) => Arrow(kind) + [SPACE] + (WriteWord(w) + [SPACE])
    case Piped => [BAR, SPACE]
  }

  function WriteLine(items: seq<Item>): seq<Byte> {
    if items == [] then [] else WriteItem(items[0]) + WriteLine(items[1..])
  }

  /** What one item asks for. */
  function AddItem(i: Item, b: Building): (s: Step)
    requires b.commands != []
    ensures s.More? ==> s.b.commands != []
  {
    match i
    case Argument(w) => AddWord(b, Means(w))
    case Piped => AddPipe(b)
    case Redirected(kind, w) =>
      if |Last(b).redirects| == REDIRECTS_MAX then Stop(TooManyRedirections) else AddRedirect(b, kind, Word(Means(w)))
  }

  /** What the items ask for, with no text in between. */
  function Build(items: seq<Item>, b: Building): Result
    requires b.commands != []
    decreases |items|
  {
    if items == [] then Close(b)
    else
      match AddItem(items[0], b)
      case Stop(e) => Err(e)
      case More(c) => Build(items[1..], c)
  }

  lemma TokenOfArrow(line: seq<Byte>, p: nat, kind: Kind)
    requires At(line, p, Arrow(kind) + [SPACE])
    ensures NextToken(line, p) == (Redirect(kind), p + |Arrow(kind)|)
  {
    AtFirst(line, p, Arrow(kind) + [SPACE]);
    AtFirst(line, p + 1, (Arrow(kind) + [SPACE])[1..]);
  }

  /** A blank before a token changes nothing. */
  lemma SkipParse(line: seq<Byte>, p: nat, b: Building)
    requires p < |line| && line[p] == SPACE && b.commands != []
    ensures ParseFrom(line, p, b) == ParseFrom(line, p + 1, b)
  {
    SkipOne(line, p);
  }

  /** Where the parser goes on after one item. */
  ghost function After(line: seq<Byte>, q: nat, step: Step): Result
    requires q <= |line| && (step.More? ==> step.b.commands != [])
  {
    match step
    case Stop(e) => Err(e)
    case More(c) => ParseFrom(line, q, c)
  }

  lemma ParseArgument(line: seq<Byte>, p: nat, w: seq<Piece>, b: Building)
    requires WordOk(w) && At(line, p, WriteWord(w) + [SPACE]) && b.commands != []
    ensures ParseFrom(line, p, b) == After(line, p + |WriteWord(w)| + 1, AddWord(b, Means(w)))
  {
    hide NextToken, WriteWord, Means, AddWord, WordOk, Last;
    TokenOfWord(line, p, w);
    AtSplit(line, p, WriteWord(w), [SPACE]);
    var q := p + |WriteWord(w)|;
    AtFirst(line, q, [SPACE]);
    if AddWord(b, Means(w)).More? {
      SkipParse(line, q, AddWord(b, Means(w)).b);
    }
  }

  lemma ParsePiped(line: seq<Byte>, p: nat, b: Building)
    requires At(line, p, [BAR, SPACE]) && b.commands != []
    ensures ParseFrom(line, p, b) == After(line, p + 2, AddPipe(b))
  {
    hide NextToken, AddPipe, Last;
    TokenOfPipe(line, p);
    if AddPipe(b).More? {
      SkipParse(line, p + 1, AddPipe(b).b);
    }
  }

  lemma ParseRedirected(line: seq<Byte>, p: nat, kind: Kind, w: seq<Piece>, b: Building)
    requires WordOk(w) && At(line, p, Arrow(kind) + [SPACE] + (WriteWord(w) + [SPACE])) && b.commands != []
    ensures ParseFrom(line, p, b) == After(line, p + |Arrow(kind)| + 1 + |WriteWord(w)| + 1, AddItem(Redirected(kind, w), b))
  {
    hide NextToken, WriteWord, Means, Arrow, WordOk, Last;
    AtSplit(line, p, Arrow(kind) + [SPACE], WriteWord(w) + [SPACE]);
    TokenOfArrow(line, p, kind);
    AtSplit(line, p, Arrow(kind), [SPACE]);
    var r := p + |Arrow(kind)|;
    AtFirst(line, r, [SPACE]);
    TokenOfWord(line, r + 1, w);
    SkipOne(line, r);
    AtSplit(line, r + 1, WriteWord(w), [SPACE]);
    var q := r + 1 + |WriteWord(w)|;
    AtFirst(line, q, [SPACE]);
    SkipParse(line, q, AddRedirect(b, kind, Word(Means(w))).b);
  }

  /** One item is read back. */
  lemma ParseItem(line: seq<Byte>, p: nat, item: Item, b: Building)
    requires ItemOk(item) && At(line, p, WriteItem(item)) && b.commands != []
    ensures ParseFrom(line, p, b) == After(line, p + |WriteItem(item)|, AddItem(item, b))
  {
    hide NextToken, WriteWord, Means, WordOk, Last, ParseFrom, After, At, AddWord, AddPipe, AddRedirect;
    match item
    case Argument(w) => ParseArgument(line, p, w, b);
    case Piped => ParsePiped(line, p, b);
    case Redirected(kind, w) => ParseRedirected(line, p, kind, w, b);
  }

  /** The parser reads back what was written, item by item. */
  lemma {:induction false} ParseWritten(line: seq<Byte>, p: nat, items: seq<Item>, b: Building)
    requires (forall i :: 0 <= i < |items| ==> ItemOk(items[i])) && p <= |line| && line[p..] == WriteLine(items) && b.commands != []
    ensures ParseFrom(line, p, b) == Build(items, b)
    decreases |items|
  {
    hide NextToken, ParseFrom, WriteItem, ItemOk, AddItem;
    if items == [] {
      ParseEnd(line, b);
    } else {
      var item, rest := items[0], WriteLine(items[1..]);
      assert At(line, p, WriteItem(item) + rest);
      AtSplit(line, p, WriteItem(item), rest);
      ParseItem(line, p, item, b);
      var q := p + |WriteItem(item)|;
      assert line[q..] == rest;
      if AddItem(item, b).More? {
        ParseWritten(line, q, items[1..], AddItem(item, b).b);
      }
    }
  }

  lemma ParseEnd(line: seq<Byte>, b: Building)
    requires b.commands != []
    ensures ParseFrom(line, |line|, b) == Close(b)
  {
  }

  lemma TokenOfPipe(line: seq<Byte>, p: nat)
    requires At(line, p, [BAR, SPACE])
    ensures NextToken(line, p) == (Pipe, p + 1) && p + 1 < |line| && line[p + 1] == SPACE
  {
    AtFirst(line, p, [BAR, SPACE]);
    AtFirst(line, p + 1, [SPACE]);
  }

  lemma {:induction false} BackslashedPlain(s: seq<Byte>)
    requires AllPlain(s)
    ensures AllPlain(Backslashed(s))
  {
    if s != [] {
      BackslashedPlain(s[1..]);
    }
  }

  lemma {:induction false} WordPlain(w: seq<Piece>)
    requires forall i :: 0 <= i < |w| ==> PieceOk(w[i])
    ensures AllPlain(WriteWord(w))
  {
    if w != [] {
      assert PieceOk(w[0]);
      WordPlain(w[1..]);
      if w[0].Double? {
        BackslashedPlain(w[0].s);
      }
    }
  }

  lemma {:induction false} LinePlain(items: seq<Item>)
    requires forall i :: 0 <= i < |items| ==> ItemOk(items[i])
    ensures AllPlain(WriteLine(items))
  {
    if items != [] {
      LinePlain(items[1..]);
      assert ItemOk(items[0]);
      if !items[0].Piped? {
        WordPlain(items[0].w);
      }
    }
  }

  lemma {:induction false} PlainLine(line: seq<Byte>, p: nat)
    requires AllPlain(line) && |line| < LINE_MAX && p <= |line|
    ensures CheckLine(line, p) == []
    decreases |line| - p
  {
    if p < |line| {
      PlainLine(line, p + 1);
    }
  }

  /** Whatever is asked for, in whatever order and with whatever quoting, is what is parsed. */
  lemma WrittenIsParsed(items: seq<Item>)
    requires (forall i :: 0 <= i < |items| ==> ItemOk(items[i])) && |WriteLine(items)| < LINE_MAX
    ensures Parse(WriteLine(items)) == Build(items, NOTHING)
  {
    var line := WriteLine(items);
    LinePlain(items);
    PlainLine(line, 0);
    assert line[0..] == line;
    ParseWritten(line, 0, items, NOTHING);
  }

  // ------------------------------------------------------------ plans

  /** A command with each word written in some way. */
  datatype Written = Written(args: seq<seq<Piece>>, redirects: seq<(Kind, seq<Piece>)>)

  predicate WrittenOk(c: Written) {
    && 0 < |c.args| <= ARGS_MAX && |c.redirects| <= REDIRECTS_MAX
    && (forall i :: 0 <= i < |c.args| ==> WordOk(c.args[i]))
    && (forall i :: 0 <= i < |c.redirects| ==> WordOk(c.redirects[i].1))
    && Means(c.args[0]) != []
  }

  function ArgItems(args: seq<seq<Piece>>): seq<Item> {
    if args == [] then [] else [Argument(args[0])] + ArgItems(args[1..])
  }

  function RedirectItems(rs: seq<(Kind, seq<Piece>)>): seq<Item> {
    if rs == [] then [] else [Redirected(rs[0].0, rs[0].1)] + RedirectItems(rs[1..])
  }

  function CommandItems(c: Written): seq<Item> {
    ArgItems(c.args) + RedirectItems(c.redirects)
  }

  /** The line of a plan: its commands, with a bar in between. */
  function Items(cs: seq<Written>): seq<Item>
    requires 1 <= |cs| <= STAGES_MAX
  {
    if |cs| == 1 then CommandItems(cs[0]) else CommandItems(cs[0]) + [Piped] + CommandItems(cs[1])
  }

  function Argv(args: seq<seq<Piece>>): (r: seq<seq<Byte>>)
    ensures |r| == |args|
  {
    if args == [] then [] else [Means(args[0])] + Argv(args[1..])
  }

  function Redirections(rs: seq<(Kind, seq<Piece>)>): (r: seq<Redirection>)
    ensures |r| == |rs|
  {
    if rs == [] then [] else [Redirection(rs[0].0, Means(rs[0].1))] + Redirections(rs[1..])
  }

  function CommandOf(c: Written): Command {
    Command(Argv(c.args), Redirections(c.redirects))
  }

  /** The plan that was written. */
  function PlanOf(cs: seq<Written>): Plan
    requires 1 <= |cs| <= STAGES_MAX
  {
    if |cs| == 1 then Plan([CommandOf(cs[0])], cs[0].redirects != [])
    else Plan([CommandOf(cs[0]), CommandOf(cs[1])], true)
  }

  lemma LastOf(b: Building, c: Command, d: Command)
    requires b.commands != []
    ensures Last(WithLast(b, c)) == c && WithLast(WithLast(b, c), d) == WithLast(b, d)
    ensures WithLast(b, Last(b)) == b && WithLast(b, c).compound == b.compound
    ensures WithLast(b.(compound := true), c) == WithLast(b, c).(compound := true)
  {
  }

  lemma {:induction false} BuildArgs(args: seq<seq<Piece>>, rest: seq<Item>, b: Building)
    requires b.commands != [] && |Last(b).argv| + |args| <= ARGS_MAX
    ensures Build(ArgItems(args) + rest, b) == Build(rest, WithLast(b, Last(b).(argv := Last(b).argv + Argv(args))))
    decreases |args|
  {
    hide Last, WithLast, Means;
    var now := Last(b);
    if args == [] {
      assert ArgItems(args) + rest == rest;
      assert now.(argv := now.argv + Argv(args)) == now;
      LastOf(b, now, now);
    } else {
      var one := now.(argv := now.argv + [Means(args[0])]);
      var all := now.(argv := now.argv + Argv(args));
      LastOf(b, one, all);
      assert (ArgItems(args) + rest)[1..] == ArgItems(args[1..]) + rest;
      BuildArgs(args[1..], rest, WithLast(b, one));
      assert one.argv + Argv(args[1..]) == all.argv;
    }
  }

  lemma {:induction false} BuildRedirects(rs: seq<(Kind, seq<Piece>)>, rest: seq<Item>, b: Building)
    requires b.commands != [] && |Last(b).redirects| + |rs| <= REDIRECTS_MAX
    ensures Build(RedirectItems(rs) + rest, b) ==
      Build(rest, WithLast(b, Last(b).(redirects := Last(b).redirects + Redirections(rs))).(compound := b.compound || rs != []))
    decreases |rs|
  {
    hide Last, WithLast, Means;
    var now := Last(b);
    if rs == [] {
      assert RedirectItems(rs) + rest == rest;
      assert now.(redirects := now.redirects + Redirections(rs)) == now;
      LastOf(b, now, now);
    } else {
      var one := now.(redirects := now.redirects + [Redirection(rs[0].0, Means(rs[0].1))]);
      var all := now.(redirects := now.redirects + Redirections(rs));
      var c := WithLast(b, one).(compound := true);
      LastOf(b, one, all);
      LastSame(WithLast(b, one), c);
      assert (RedirectItems(rs) + rest)[1..] == RedirectItems(rs[1..]) + rest;
      BuildRedirects(rs[1..], rest, c);
      assert one.redirects + Redirections(rs[1..]) == all.redirects;
      LastOf(WithLast(b, one), all, all);
    }
  }

  lemma LastSame(b: Building, c: Building)
    requires b.commands != [] && c == b.(compound := true)
    ensures Last(b) == Last(c)
  {
  }

  /** One command's items, on an empty last command. */
  lemma BuildCommand(c: Written, rest: seq<Item>, b: Building)
    requires WrittenOk(c) && b.commands != [] && Last(b) == Command([], [])
    ensures Build(CommandItems(c) + rest, b) == Build(rest, WithLast(b, CommandOf(c)).(compound := b.compound || c.redirects != []))
  {
    hide Build, ArgItems, RedirectItems, Argv, Redirections;
    assert CommandItems(c) + rest == ArgItems(c.args) + (RedirectItems(c.redirects) + rest);
    BuildArgs(c.args, RedirectItems(c.redirects) + rest, b);
    var b1 := WithLast(b, Last(b).(argv := [] + Argv(c.args)));
    BuildRedirects(c.redirects, rest, b1);
    assert [] + Argv(c.args) == Argv(c.args) && [] + Redirections(c.redirects) == Redirections(c.redirects);
  }

  lemma BuildEnd(b: Building)
    requires b.commands != []
    ensures Build([], b) == Close(b)
  {
  }

  lemma ArgvFirst(c: Written)
    requires WrittenOk(c)
    ensures CommandOf(c).argv != [] && CommandOf(c).argv[0] != []
  {
  }

  lemma BuildPlan(cs: seq<Written>)
    requires 1 <= |cs| <= STAGES_MAX && forall i :: 0 <= i < |cs| ==> WrittenOk(cs[i])
    ensures Build(Items(cs), NOTHING) == Ok(PlanOf(cs))
  {
    hide CommandItems, CommandOf, Build, WrittenOk;
    ArgvFirst(cs[0]);
    var b1 := Building([CommandOf(cs[0])], cs[0].redirects != []);
    assert WithLast(NOTHING, CommandOf(cs[0])).(compound := cs[0].redirects != []) == b1;
    if |cs| == 1 {
      BuildCommand(cs[0], [], NOTHING);
      assert CommandItems(cs[0]) + [] == CommandItems(cs[0]);
      BuildEnd(b1);
      CloseNamed(b1);
    } else {
      ArgvFirst(cs[1]);
      assert Items(cs) == CommandItems(cs[0]) + ([Piped] + CommandItems(cs[1]));
      BuildCommand(cs[0], [Piped] + CommandItems(cs[1]), NOTHING);
      BuildPipe(CommandItems(cs[1]), b1);
      var b2 := Building([CommandOf(cs[0]), Command([], [])], true);
      assert CommandItems(cs[1]) + [] == CommandItems(cs[1]);
      BuildCommand(cs[1], [], b2);
      var b3 := Building([CommandOf(cs[0]), CommandOf(cs[1])], true);
      assert WithLast(b2, CommandOf(cs[1])).(compound := true) == b3;
      assert b1.commands + [Command([], [])] == b2.commands;
      BuildEnd(b3);
      CloseNamed(b3);
    }
  }

  lemma BuildPipe(rest: seq<Item>, b: Building)
    requires |b.commands| == 1 && b.commands[0].argv != []
    ensures Build([Piped] + rest, b) == Build(rest, Building(b.commands + [Command([], [])], true))
  {
    assert ([Piped] + rest)[1..] == rest;
  }

  lemma CloseNamed(b: Building)
    requires 1 <= |b.commands| <= 2 && forall i :: 0 <= i < |b.commands| ==> b.commands[i].argv != [] && b.commands[i].argv[0] != []
    ensures Close(b) == Ok(Plan(b.commands, b.compound))
  {
    assert CheckNames(b, |b.commands|) == Ok(Plan(b.commands, b.compound));
    if |b.commands| == 2 {
      assert CheckNames(b, 1) == CheckNames(b, 2);
    }
  }

  lemma {:induction false} ItemsOk(cs: seq<Written>)
    requires 1 <= |cs| <= STAGES_MAX && forall i :: 0 <= i < |cs| ==> WrittenOk(cs[i])
    ensures forall i :: 0 <= i < |Items(cs)| ==> ItemOk(Items(cs)[i])
  {
    ArgsOk(cs[0].args);
    RedirectsOk(cs[0].redirects);
    if |cs| == 2 {
      ArgsOk(cs[1].args);
      RedirectsOk(cs[1].redirects);
    }
  }

  lemma {:induction false} ArgsOk(args: seq<seq<Piece>>)
    requires forall i :: 0 <= i < |args| ==> WordOk(args[i])
    ensures forall i :: 0 <= i < |ArgItems(args)| ==> ItemOk(ArgItems(args)[i])
  {
    hide WordOk;
    if args != [] {
      ArgsOk(args[1..]);
    }
  }

  lemma {:induction false} RedirectsOk(rs: seq<(Kind, seq<Piece>)>)
    requires forall i :: 0 <= i < |rs| ==> WordOk(rs[i].1)
    ensures forall i :: 0 <= i < |RedirectItems(rs)| ==> ItemOk(RedirectItems(rs)[i])
  {
    hide WordOk;
    if rs != [] {
      RedirectsOk(rs[1..]);
    }
  }

  /** Round trip: a plan written in fewer than 128 bytes, with any quoting, is parsed as that plan. */
  lemma RoundTrip(cs: seq<Written>)
    requires 1 <= |cs| <= STAGES_MAX && (forall i :: 0 <= i < |cs| ==> WrittenOk(cs[i])) && |WriteLine(Items(cs))| < LINE_MAX
    ensures Parse(WriteLine(Items(cs))) == Ok(PlanOf(cs))
  {
    hide Parse, Build, WriteLine, Items, PlanOf, WrittenOk;
    ItemsOk(cs);
    WrittenIsParsed(Items(cs));
    BuildPlan(cs);
  }

  /** Every word a command line can hold can be written. */
  lemma Quotable(word: seq<Byte>)
    requires AllPlain(word)
    ensures WordOk([Double(word)]) && Means([Double(word)]) == word
  {
    assert Means([Double(word)]) == Meaning(Double(word)) + Means([]);
  }
}
