/** shell_parse.c: the lexer and parser as they run, over one fixed storage area. */
module ShellParse {
  import opened Bytes
  import opened CStrings
  import opened ShellGrammar

  /** argv and redirection paths are offsets of NUL-terminated strings in the storage. */
  datatype RawRedirect = RawRedirect(kind: Kind, path: nat)

  datatype RawCommand = RawCommand(argv: seq<nat>, redirects: seq<RawRedirect>)

  /** The raw command stands for the command. */
  ghost predicate Stands(s: seq<Byte>, used: nat, raw: RawCommand, c: Command) {
    && |raw.argv| == |c.argv| && |raw.redirects| == |c.redirects|
    && (forall i :: 0 <= i < |raw.argv| ==> StoredAt(s, used, raw.argv[i], c.argv[i]))
    && (forall i :: 0 <= i < |raw.redirects| ==>
          raw.redirects[i].kind == c.redirects[i].kind && StoredAt(s, used, raw.redirects[i].path, c.redirects[i].path))
  }

  ghost predicate StandFor(s: seq<Byte>, used: nat, raw: seq<RawCommand>, cs: seq<Command>) {
    |raw| == |cs| && forall i :: 0 <= i < |raw| ==> Stands(s, used, raw[i], cs[i])
  }

  lemma StandsKept(s: seq<Byte>, t: seq<Byte>, used: nat, more: nat, raw: seq<RawCommand>, cs: seq<Command>)
    requires StandFor(s, used, raw, cs) && used <= more <= |t| && |s| == |t| && s[..used] == t[..used]
    ensures StandFor(t, more, raw, cs)
  {
    hide StoredAt;
    forall i | 0 <= i < |raw| ensures Stands(t, more, raw[i], cs[i]) {
      assert Stands(s, used, raw[i], cs[i]);
      forall j | 0 <= j < |raw[i].argv| ensures StoredAt(t, more, raw[i].argv[j], cs[i].argv[j]) {
        StoredKept(s, t, used, more, raw[i].argv[j], cs[i].argv[j]);
      }
      forall j | 0 <= j < |raw[i].redirects| ensures StoredAt(t, more, raw[i].redirects[j].path, cs[i].redirects[j].path) {
        StoredKept(s, t, used, more, raw[i].redirects[j].path, cs[i].redirects[j].path);
      }
    }
  }

  class Parser {
    const line: seq<Byte>
    const storage: array<Byte>
    var cursor: nat
    var used: nat
    var word: nat
    var commands: seq<RawCommand>
    var compound: bool

    constructor (line: seq<Byte>)
      ensures fresh(storage) && storage.Length == LINE_MAX && this.line == line
      ensures cursor == 0 && used == 0 && commands == [RawCommand([], [])] && !compound
    {
      this.line, cursor, used, word, commands, compound := line, 0, 0, 0, [RawCommand([], [])], false;
      storage := new Byte[LINE_MAX](i => 0);
    }

    /** What is stored never runs ahead of what was read: emit() always has room. */
    ghost predicate Room()
      reads this, storage
    {
      && storage.Length == LINE_MAX && |line| < LINE_MAX && cursor <= |line|
      && (forall i :: 0 <= i < |line| ==> line[i] != 0)
      && used <= cursor + (if cursor == |line| || IsSpace(line[cursor]) || IsOperator(line[cursor]) then 1 else 0)
    }

    /** emit(). */
    method Emit(c: Byte)
      requires used < storage.Length
      modifies this`used, storage
      ensures used == old(used) + 1 && storage[..] == old(storage[..])[old(used) := c]
    {
      storage[used] := c;
      used := used + 1;
    }

    /** next(): the token of the grammar; a word is appended to the storage. */
    method Next() returns (token: Token)
      requires Room()
      modifies this`cursor, this`used, this`word, storage
      ensures (token, cursor) == NextToken(line, old(cursor)) && (!token.Bad? ==> Room())
      ensures !token.Bad? ==> old(used) <= used <= LINE_MAX && storage[..old(used)] == old(storage[..used])
      ensures token.Word? ==> StoredAt(storage[..], used, word, token.text)
    {
      hide ScanWord, NextToken, StoredAt;
      var p := cursor;
      while p < |line| && IsSpace(line[p])
        invariant cursor <= p <= |line| && SkipSpace(line, p) == SkipSpace(line, cursor)
        invariant cursor < p ==> used <= p
      {
        p := p + 1;
      }
      if p == |line| {
        NextEnd(line, cursor);
        return End;
      }
      if IsOperator(line[p]) {
        NextOperator(line, cursor);
        var c := line[p];
        p := p + 1;
        token := if c == BAR then Pipe else if c == LESS then Redirect(Input) else Redirect(Output);
        if c == GREATER && p < |line| && line[p] == c {
          p := p + 1;
          token := Redirect(Append);
        } else if (c != BAR && c != LESS && c != GREATER) || (p < |line| && line[p] == c) {
          return Bad(UnsupportedOperator);
        }
        cursor := p;
        return;
      }
      token := ScanInto(p);
    }

    /** The word loop of next(), from the first character of the word. */
    method ScanInto(start: nat) returns (token: Token)
      requires Room() && cursor <= start < |line| && start == SkipSpace(line, cursor) && used <= start
      requires !IsSpace(line[start]) && !IsOperator(line[start])
      modifies this`cursor, this`used, this`word, storage
      ensures (token, cursor) == NextToken(line, old(cursor)) && (!token.Bad? ==> Room())
      ensures !token.Bad? ==> old(used) <= used <= LINE_MAX && storage[..old(used)] == old(storage[..used])
      ensures token.Word? ==> StoredAt(storage[..], used, word, token.text)
    {
      hide NextToken, ScanWord, StoredAt, Growing, IsDigit, Special, SkipSpace;
      NextWord(line, cursor);
      ghost var u := used;
      ghost var text: seq<Byte> := [];
      word := used;
      var p, quote: Byte, number := start, 0, true;
      ghost var before := storage[..used];
      Begun(storage[..], used);
      while p < |line| && (quote != 0 || (!IsSpace(line[p]) && !IsOperator(line[p])))
        invariant start <= p <= |line| && storage.Length == LINE_MAX && u <= used && used - u <= p - start
        invariant Growing(before, storage[..], used, text)
        invariant ScanWord(line, start, 0, true, []) == ScanWord(line, p, quote, number, text)
        invariant (quote == 0 || quote == QUOTE || quote == DQUOTE) && word == u && cursor == old(cursor)
        decreases |line| - p
      {
        ScanUnfold(line, p, quote, number, text);
        var c := line[p];
        p := p + 1;
        if quote == 0 && (c == QUOTE || c == DQUOTE) {
          quote, number := c, false;
          continue;
        }
        if quote != 0 && c == quote {
          quote := 0;
          continue;
        }
        if c == BACKSLASH && quote != QUOTE {
          number := false;
          if p == |line| {
            return Bad(UnfinishedEscape);
          }
          if quote == DQUOTE && !Special(line[p]) {
            GrowMore(before, storage[..], used, text, c);
            Emit(c);
            text := text + [c];
            continue;
          }
          c := line[p];
          p := p + 1;
        }
        if !IsDigit(c) {
          number := false;
        }
        GrowMore(before, storage[..], used, text, c);
        Emit(c);
        text := text + [c];
      }
      ScanUnfold(line, p, quote, number, text);
      if quote != 0 {
        return Bad(UnclosedQuote);
      }
      if number && p < |line| && (line[p] == LESS || line[p] == GREATER) {
        return Bad(DescriptorRedirection);
      }
      GrowEnd(before, storage[..], used, text);
      Emit(0);
      cursor := p;
      return Word(storage[word..used - 1]);
    }

    /** The commands built so far are those of the grammar, and what is stored is theirs. */
    ghost predicate Holds(b: Building)
      reads this, storage
    {
      && b.commands != [] && storage.Length == LINE_MAX && used <= LINE_MAX
      && StandFor(storage[..], used, commands, b.commands) && compound == b.compound
    }

    /** shell_parse: exactly what the grammar says, for every line that is a C string. */
    method Run() returns (r: Outcome)
      requires storage.Length == LINE_MAX && cursor == 0 && used == 0 && commands == [RawCommand([], [])] && !compound
      requires forall i :: 0 <= i < |line| ==> line[i] != 0
      modifies this, storage
      ensures r == if Parse(line).Err? then Refused(Parse(line).error) else Parsed
      ensures r.Parsed? ==> StandFor(storage[..], used, commands, Parse(line).plan.commands) && compound == Parse(line).plan.compound
    {
      hide NextToken, StoredAt, Stands, ParseFrom, Close, AddWord, AddPipe, AddRedirect, CheckLine;
      var length := 0;
      CheckStart(line);
      while length < |line|
        invariant 0 <= length <= |line| && length < LINE_MAX && CheckLine(line, 0) == CheckLine(line, length)
        modifies {}
      {
        CheckNext(line, length);
        if line[length] == LF || line[length] == CR {
          return Refused(Multiline);
        }
        length := length + 1;
        if length == LINE_MAX {
          return Refused(TooLong);
        }
      }
      CheckDone(line);
      r := Tokens();
    }

    method Tokens() returns (r: Outcome)
      requires Room() && cursor == 0 && used == 0 && commands == [RawCommand([], [])] && !compound
      modifies this, storage
      ensures r == if ParseFrom(line, 0, NOTHING).Err? then Refused(ParseFrom(line, 0, NOTHING).error) else Parsed
      ensures r.Parsed? ==> StandFor(storage[..], used, commands, ParseFrom(line, 0, NOTHING).plan.commands)
      ensures r.Parsed? ==> compound == ParseFrom(line, 0, NOTHING).plan.compound
    {
      hide NextToken, StoredAt, Stands, ParseFrom, Close, AddWord, AddPipe, AddRedirect, StandFor;
      ghost var b := NOTHING;
      EmptyStands(storage[..]);
      while true
        invariant Room() && Holds(b) && ParseFrom(line, 0, NOTHING) == ParseFrom(line, cursor, b)
        decreases |line| - cursor
      {
        ghost var p, u, s := cursor, used, storage[..];
        var token := Next();
        ParseUnfold(line, p, b);
        if token.Bad? {
          return Refused(token.error);
        }
        StandsKept(s, storage[..], u, used, commands, b.commands);
        SameCounts(storage[..], used, commands, b);
        if token.End? {
          break;
        }
        var last := |commands| - 1;
        if token.Word? {
          AddedWord(storage[..], used, commands, b, word, token.text);
          if |commands[last].argv| == ARGS_MAX {
            return Refused(TooManyArguments);
          }
          b := AddWord(b, token.text).b;
          commands := commands[last := commands[last].(argv := commands[last].argv + [word])];
        } else if token.Pipe? {
          AddedPipe(storage[..], used, commands, b);
          if commands[last].argv == [] {
            return Refused(MissingBeforePipe);
          }
          if last + 1 == STAGES_MAX {
            return Refused(TooManyStages);
          }
          b := AddPipe(b).b;
          commands, compound := commands + [RawCommand([], [])], true;
        } else {
          if |commands[last].redirects| == REDIRECTS_MAX {
            return Refused(TooManyRedirections);
          }
          ghost var u1, s1 := used, storage[..];
          var target := Next();
          if target.Bad? {
            BadTarget(b, token.kind, target);
            return Refused(target.error);
          }
          if !target.Word? {
            BadTarget(b, token.kind, target);
            return Refused(MissingPath);
          }
          StandsKept(s1, storage[..], u1, used, commands, b.commands);
          AddedRedirect(storage[..], used, commands, b, token.kind, word, target.text);
          b := AddRedirect(b, token.kind, target).b;
          commands := commands[last := commands[last].(redirects := commands[last].redirects + [RawRedirect(token.kind, word)])];
          compound := true;
        }
      }
      r := Finish(b);
    }

    /** The checks after the last token. */
    method Finish(ghost b: Building) returns (r: Outcome)
      requires Holds(b)
      modifies this`commands
      ensures r == if Close(b).Err? then Refused(Close(b).error) else Parsed
      ensures r.Parsed? ==> StandFor(storage[..], used, commands, Close(b).plan.commands) && compound == Close(b).plan.compound
    {
      hide StoredAt;
      assert Stands(storage[..], used, commands[0], b.commands[0]);
      if commands[0].argv == [] && !compound {
        commands := [];
        return Parsed;
      }
      var i := 0;
      while i < |commands|
        invariant 0 <= i <= |commands| && commands == old(commands) && CheckNames(b, 0) == CheckNames(b, i)
      {
        assert Stands(storage[..], used, commands[i], b.commands[i]);
        if commands[i].argv == [] {
          return Refused(MissingCommand);
        }
        NameByte(storage[..], used, commands[i].argv[0], b.commands[i].argv[0]);
        if storage[commands[i].argv[0]] == 0 {
          return Refused(EmptyName);
        }
        i := i + 1;
      }
      return Parsed;
    }
  }

  /** A stored string is empty exactly when its first byte is NUL. */
  lemma NameByte(s: seq<Byte>, used: nat, at: nat, text: seq<Byte>)
    requires StoredAt(s, used, at, text)
    ensures at < |s| && (s[at] == 0 <==> text == [])
  {
    if text != [] {
      assert s[at..at + |text|][0] == text[0];
    }
  }

  lemma EmptyStands(s: seq<Byte>)
    ensures StandFor(s, 0, [RawCommand([], [])], NOTHING.commands)
  {
  }

  lemma CheckStart(line: seq<Byte>)
    ensures Parse(line) == if CheckLine(line, 0) != [] then Err(CheckLine(line, 0)[0]) else ParseFrom(line, 0, NOTHING)
  {
  }

  lemma CheckNext(line: seq<Byte>, p: nat)
    requires p < |line|
    ensures CheckLine(line, p) ==
      if line[p] == LF || line[p] == CR then [Multiline]
      else if p + 1 == LINE_MAX then [TooLong]
      else CheckLine(line, p + 1)
  {
  }

  lemma CheckDone(line: seq<Byte>)
    ensures CheckLine(line, |line|) == []
  {
  }

  /** One turn of the parser's loop, as the grammar has it. */
  lemma ParseUnfold(line: seq<Byte>, p: nat, b: Building)
    requires p <= |line| && b.commands != []
    ensures var t, q := NextToken(line, p).0, NextToken(line, p).1;
      && (t.End? ==> ParseFrom(line, p, b) == Close(b))
      && (t.Bad? ==> ParseFrom(line, p, b) == Err(t.error))
      && (t.Word? ==> ParseFrom(line, p, b) == Continue(line, q, AddWord(b, t.text)))
      && (t.Pipe? ==> ParseFrom(line, p, b) == Continue(line, q, AddPipe(b)))
      && (t.Redirect? && |Last(b).redirects| == REDIRECTS_MAX ==> ParseFrom(line, p, b) == Err(TooManyRedirections))
      && (t.Redirect? && |Last(b).redirects| != REDIRECTS_MAX ==>
            ParseFrom(line, p, b) == Continue(line, NextToken(line, q).1, AddRedirect(b, t.kind, NextToken(line, q).0)))
  {
  }

  ghost function Continue(line: seq<Byte>, q: nat, step: Step): Result
    requires q <= |line| && (step.More? ==> step.b.commands != [])
  {
    if step.Stop? then Err(step.error) else ParseFrom(line, q, step.b)
  }

  lemma SameCounts(s: seq<Byte>, used: nat, raw: seq<RawCommand>, b: Building)
    requires b.commands != [] && StandFor(s, used, raw, b.commands)
    ensures raw != [] && |raw[|raw| - 1].redirects| == |Last(b).redirects|
  {
    assert Stands(s, used, raw[|raw| - 1], b.commands[|raw| - 1]);
  }

  lemma BadTarget(b: Building, kind: Kind, target: Token)
    requires b.commands != [] && !target.Word?
    ensures AddRedirect(b, kind, target) == Stop(if target.Bad? then target.error else MissingPath)
  {
  }

  lemma AddedWord(s: seq<Byte>, used: nat, raw: seq<RawCommand>, b: Building, at: nat, text: seq<Byte>)
    requires b.commands != [] && StandFor(s, used, raw, b.commands) && StoredAt(s, used, at, text)
    ensures |raw[|raw| - 1].argv| == ARGS_MAX ==> AddWord(b, text) == Stop(TooManyArguments)
    ensures |raw[|raw| - 1].argv| != ARGS_MAX ==> AddWord(b, text).More? && AddWord(b, text).b.compound == b.compound
    ensures |raw[|raw| - 1].argv| != ARGS_MAX ==>
              StandFor(s, used, raw[|raw| - 1 := raw[|raw| - 1].(argv := raw[|raw| - 1].argv + [at])], AddWord(b, text).b.commands)
  {
    hide StoredAt;
    assert Stands(s, used, raw[|raw| - 1], b.commands[|raw| - 1]);
  }

  lemma AddedPipe(s: seq<Byte>, used: nat, raw: seq<RawCommand>, b: Building)
    requires b.commands != [] && StandFor(s, used, raw, b.commands)
    ensures raw[|raw| - 1].argv == [] ==> AddPipe(b) == Stop(MissingBeforePipe)
    ensures raw[|raw| - 1].argv != [] && |raw| == STAGES_MAX ==> AddPipe(b) == Stop(TooManyStages)
    ensures raw[|raw| - 1].argv != [] && |raw| != STAGES_MAX ==> AddPipe(b).More? && AddPipe(b).b.compound
    ensures raw[|raw| - 1].argv != [] && |raw| != STAGES_MAX ==> StandFor(s, used, raw + [RawCommand([], [])], AddPipe(b).b.commands)
  {
    hide StoredAt;
    assert Stands(s, used, raw[|raw| - 1], b.commands[|raw| - 1]);
  }

  lemma AddedRedirect(s: seq<Byte>, used: nat, raw: seq<RawCommand>, b: Building, kind: Kind, at: nat, text: seq<Byte>)
    requires b.commands != [] && StandFor(s, used, raw, b.commands) && StoredAt(s, used, at, text)
    ensures AddRedirect(b, kind, Word(text)).More? && AddRedirect(b, kind, Word(text)).b.compound
    ensures StandFor(s, used, raw[|raw| - 1 := raw[|raw| - 1].(redirects := raw[|raw| - 1].redirects + [RawRedirect(kind, at)])],
                     AddRedirect(b, kind, Word(text)).b.commands)
  {
    hide StoredAt;
    assert Stands(s, used, raw[|raw| - 1], b.commands[|raw| - 1]);
  }

  /** How shell_parse ends: NULL, or what was wrong. */
  datatype Outcome = Parsed | Refused(error: Error)

  /** One turn of the word loop, as the grammar has it. */
  lemma ScanUnfold(line: seq<Byte>, p: nat, quote: Byte, number: bool, acc: seq<Byte>)
    requires p <= |line|
    ensures ScanWord(line, p, quote, number, acc) ==
      if p == |line| || (quote == 0 && (IsSpace(line[p]) || IsOperator(line[p]))) then
        if quote != 0 then Fail(UnclosedQuote)
        else if number && p < |line| && (line[p] == LESS || line[p] == GREATER) then Fail(DescriptorRedirection)
        else Done(p, acc)
      else if quote == 0 && (line[p] == QUOTE || line[p] == DQUOTE) then ScanWord(line, p + 1, line[p], false, acc)
      else if quote != 0 && line[p] == quote then ScanWord(line, p + 1, 0, number, acc)
      else if line[p] == BACKSLASH && quote != QUOTE then
        if p + 1 == |line| then Fail(UnfinishedEscape)
        else if quote == DQUOTE && !Special(line[p + 1]) then ScanWord(line, p + 1, quote, false, acc + [line[p]])
        else ScanWord(line, p + 2, quote, false, acc + [line[p + 1]])
      else ScanWord(line, p + 1, quote, number && IsDigit(line[p]), acc + [line[p]])
  {
  }
}
