/** shell_parse.c: the lexer's rules, byte by byte, without the grammar's own classes of characters. */
module ShellWords {
  import opened Bytes
  import opened ShellGrammar

  /** A byte that ends an unquoted word: tab, blank and the operators & ( ) ; < > | */
  predicate Ends(c: Byte) {
    c in [9, 32, 38, 40, 41, 59, 60, 62, 124]
  }

  /** A byte that stands for itself outside quotes: no end of a word, no quote, no backslash. */
  predicate Itself(c: Byte) {
    !Ends(c) && c != 34 && c != 39 && c != 92
  }

  /** Between double quotes a backslash escapes " $ \ and ` alone. */
  predicate Escapable(c: Byte) {
    c in [34, 36, 92, 96]
  }

  predicate Digits(s: seq<Byte>) {
    forall i :: 0 <= i < |s| ==> 48 <= s[i] <= 57
  }

  /** A run of bytes that stand for themselves. */
  lemma {:induction false} Run(line: seq<Byte>, p: nat, n: nat, number: bool, acc: seq<Byte>)
    requires p + n <= |line| && forall i :: p <= i < p + n ==> Itself(line[i])
    ensures ScanWord(line, p, 0, number, acc) == ScanWord(line, p + n, 0, number && Digits(line[p..p + n]), acc + line[p..p + n])
    decreases n
  {
    if n == 0 {
      assert acc + line[p..p + n] == acc;
    } else {
      var c := line[p];
      assert Itself(c);
      Run(line, p + 1, n - 1, number && IsDigit(c), acc + [c]);
      assert acc + line[p..p + n] == acc + [c] + line[p + 1..p + n];
      assert line[p..p + n] == [c] + line[p + 1..p + n];
      DigitsFirst(c, line[p + 1..p + n]);
    }
  }

  lemma DigitsFirst(c: Byte, s: seq<Byte>)
    ensures Digits([c] + s) <==> 48 <= c <= 57 && Digits(s)
  {
    assert Digits([c] + s) ==> ([c] + s)[0] == c && forall i :: 0 <= i < |s| ==> s[i] == ([c] + s)[i + 1];
  }

  /** An unquoted word reaches to the end of the line or to the first of the nine bytes that end one, and no
      further; in front of < or > it must not be a number. */
  lemma Unquoted(line: seq<Byte>, p: nat, n: nat)
    requires 0 < n && p + n <= |line| && forall i :: p <= i < p + n ==> Itself(line[i])
    requires p + n < |line| ==> Ends(line[p + n])
    ensures NextToken(line, p) ==
      if p + n < |line| && (line[p + n] == 60 || line[p + n] == 62) && Digits(line[p..p + n]) then (Bad(DescriptorRedirection), p)
      else (ShellGrammar.Word(line[p..p + n]), p + n)
  {
    hide Digits;
    assert Itself(line[p]);
    NextWord(line, p);
    Run(line, p, n, true, []);
    assert [] + line[p..p + n] == line[p..p + n];
  }

  /** One byte between single quotes: only the quote itself means anything. */
  lemma InSingle(line: seq<Byte>, p: nat, acc: seq<Byte>)
    requires p < |line|
    ensures ScanWord(line, p, 39, false, acc) ==
      if line[p] == 39 then ScanWord(line, p + 1, 0, false, acc) else ScanWord(line, p + 1, 39, false, acc + [line[p]])
  {
  }

  /** One or two bytes between double quotes. */
  lemma InDouble(line: seq<Byte>, p: nat, acc: seq<Byte>)
    requires p < |line|
    ensures ScanWord(line, p, 34, false, acc) ==
      if line[p] == 34 then ScanWord(line, p + 1, 0, false, acc)
      else if line[p] != 92 then ScanWord(line, p + 1, 34, false, acc + [line[p]])
      else if p + 1 == |line| then Fail(UnfinishedEscape)
      else if Escapable(line[p + 1]) then ScanWord(line, p + 2, 34, false, acc + [line[p + 1]])
      else ScanWord(line, p + 1, 34, false, acc + [92])
  {
  }

  /** Outside quotes: where quoting starts, and a backslash that escapes whatever follows. */
  lemma Outside(line: seq<Byte>, p: nat, number: bool, acc: seq<Byte>)
    requires p < |line| && !Ends(line[p]) && !Itself(line[p])
    ensures ScanWord(line, p, 0, number, acc) ==
      if line[p] == 34 then ScanWord(line, p + 1, 34, false, acc)
      else if line[p] == 39 then ScanWord(line, p + 1, 39, false, acc)
      else if p + 1 == |line| then Fail(UnfinishedEscape)
      else ScanWord(line, p + 2, 0, false, acc + [line[p + 1]])
  {
  }

  /** A quote that is not closed. */
  lemma Unclosed(line: seq<Byte>, quote: Byte, acc: seq<Byte>)
    requires quote == 34 || quote == 39
    ensures ScanWord(line, |line|, quote, false, acc) == Fail(UnclosedQuote)
  {
  }

  /** "\c" and a blank: the backslash goes in front of the four bytes it escapes. */
  lemma QuotedEscape(line: seq<Byte>, p: nat, c: Byte)
    requires p + 5 <= |line| && line[p..p + 5] == [34, 92, c, 34, 32] && c in [34, 36, 92, 96]
    ensures NextToken(line, p) == (ShellGrammar.Word([c]), p + 4)
  {
    hide ScanWord;
    var w := line[p..p + 5];
    assert line[p] == w[0] && line[p + 1] == w[1] && line[p + 2] == w[2] && line[p + 3] == w[3] && line[p + 4] == w[4];
    NextWord(line, p);
    Outside(line, p, true, []);
    InDouble(line, p + 1, []);
    InDouble(line, p + 3, [c]);
    assert [] + [c] == [c];
    ScanEnd(line, p + 4, false, [c]);
  }

  /** "\cc" and a blank: in front of any other byte the backslash stays. */
  lemma QuotedOrdinary(line: seq<Byte>, p: nat, c: Byte)
    requires p + 6 <= |line| && line[p..p + 6] == [34, 92, c, c, 34, 32] && c !in [34, 36, 92, 96]
    ensures NextToken(line, p) == (ShellGrammar.Word([92, c, c]), p + 5)
  {
    hide ScanWord;
    var w := line[p..p + 6];
    assert line[p] == w[0] && line[p + 1] == w[1] && line[p + 2] == w[2] && line[p + 3] == w[3] && line[p + 4] == w[4] && line[p + 5] == w[5];
    NextWord(line, p);
    Outside(line, p, true, []);
    InDouble(line, p + 1, []);
    InDouble(line, p + 2, [92]);
    InDouble(line, p + 3, [92, c]);
    InDouble(line, p + 4, [92, c, c]);
    assert [] + [92] == [92] && [92] + [c] == [92, c] && [92, c] + [c] == [92, c, c];
    ScanEnd(line, p + 5, false, [92, c, c]);
  }

  /** Tabs and blanks, and nothing else, are skipped in front of a token. */
  lemma Skipped(line: seq<Byte>, p: nat)
    requires p < |line|
    ensures SkipSpace(line, p) == if line[p] == 9 || line[p] == 32 then SkipSpace(line, p + 1) else p
  {
  }

  /** The operators: | < > and >> alone are understood. */
  lemma Operators(line: seq<Byte>, p: nat)
    requires p < |line| && Ends(line[p]) && line[p] != 9 && line[p] != 32
    ensures NextToken(line, p) ==
      var twice := p + 1 < |line| && line[p + 1] == line[p];
      if line[p] == 62 then if twice then (Redirect(Append), p + 2) else (Redirect(Output), p + 1)
      else if line[p] == 60 && !twice then (Redirect(Input), p + 1)
      else if line[p] == 124 && !twice then (Pipe, p + 1)
      else (Bad(UnsupportedOperator), p)
  {
  }

  /** A line holds no line break and at most 127 bytes; the first offence counts. */
  lemma {:induction false} LineLimits(line: seq<Byte>, p: nat)
    requires p <= |line| && p < 128 && forall i :: 0 <= i < p ==> line[i] != 10 && line[i] != 13
    ensures CheckLine(line, p) == [] <==> |line| <= 127 && forall i :: 0 <= i < |line| ==> line[i] != 10 && line[i] != 13
    ensures CheckLine(line, p) == [Multiline] <==>
      exists i :: 0 <= i < |line| && i < 128 && (line[i] == 10 || line[i] == 13)
    ensures CheckLine(line, p) == [TooLong] <==> |line| >= 128 && forall i :: 0 <= i < 128 ==> line[i] != 10 && line[i] != 13
    decreases |line| - p
  {
    if p < |line| && line[p] != 10 && line[p] != 13 && p + 1 < 128 {
      LineLimits(line, p + 1);
    }
  }

  /** At most 64 words and 2 commands; a bar needs a word before it, and an arrow one behind it. */
  lemma Limits(b: Building, text: seq<Byte>, kind: Kind, target: Token)
    requires b.commands != []
    ensures if |b.commands[|b.commands| - 1].argv| == 64 then AddWord(b, text) == Stop(TooManyArguments) else AddWord(b, text).More?
    ensures if b.commands[|b.commands| - 1].argv == [] then AddPipe(b) == Stop(MissingBeforePipe)
            else if |b.commands| == 2 then AddPipe(b) == Stop(TooManyStages) else AddPipe(b).More?
    ensures if target.Word? then AddRedirect(b, kind, target).More?
            else AddRedirect(b, kind, target) == Stop(if target.Bad? then target.error else MissingPath)
  {
  }

  /** Has the command a name? */
  predicate Named(c: Command) {
    c.argv != [] && c.argv[0] != []
  }

  /** A line is blank, or all its commands have names; the first without one decides the error. */
  lemma {:induction false} NamesChecked(b: Building, i: nat, k: nat)
    requires i <= k <= |b.commands| && forall j :: i <= j < k ==> Named(b.commands[j])
    requires k < |b.commands| ==> !Named(b.commands[k])
    ensures CheckNames(b, i) ==
      if k == |b.commands| then Ok(Plan(b.commands, b.compound)) else Err(if b.commands[k].argv == [] then MissingCommand else EmptyName)
    decreases k - i
  {
    if i < k {
      assert Named(b.commands[i]);
      NamesChecked(b, i + 1, k);
    }
  }

  lemma RedirectLimit(line: seq<Byte>, p: nat, b: Building)
    requires p <= |line| && b.commands != [] && NextToken(line, p).0.Redirect? && |Last(b).redirects| == 8
    ensures ParseFrom(line, p, b) == Err(TooManyRedirections)
  {
  }
}
