// The tokenizer and parser as user/sh.c runs them: two passes over the input buffer, a token array
// with a cursor, and mutually calling loops that consume it.
module ShellState {
  import opened Common
  import opened Shell
  import S = Strings

  lemma {:induction false} UncommentIs(s: string)
    ensures var t := Uncomment(s); t == s[..|t|] && '#' !in t && (|t| < |s| ==> s[|t|] == '#')
  {
    if s != [] && s[0] != '#' { UncommentIs(s[1..]); }
  }

  lemma Stopped(s: string, text: string, i: nat)
    requires i <= |text| <= |s| && text == s[..|text|] && '#' !in text
    requires |text| < |s| ==> s[|text|] == '#'
    requires i == |s| || s[i] == '#'
    ensures i == |text|
  {}

  // done has been written, and the text from i on, continuing word w, makes up the rest of all.
  ghost predicate Owes(text: string, i: nat, w: string, done: seq<Token>, all: seq<Token>) {
    i <= |text| && done + Lex(text[i..], w) == all
  }

  // Between two turns of the second pass.
  ghost predicate Lexing(m: seq<char>, text: string, done: seq<Token>, index: nat, current: nat, start: nat,
                         inWord: bool, w: string, all: seq<Token>) {
    && start <= current <= |text| < |m| && index == |done| <= |all| && Owes(text, current, w, done, all)
    && (if inWord then w == m[start..current] && w != [] else w == [])
  }

  lemma InText(m: seq<char>, text: string, done: seq<Token>, index: nat, current: nat, start: nat,
               inWord: bool, w: string, all: seq<Token>)
    requires Lexing(m, text, done, index, current, start, inWord, w, all)
    ensures current <= |text| < |m| && index <= |all|
  {}

  lemma AtChar(m: seq<char>, text: string, i: nat)
    requires S.Str(m, 0) && S.Text(m, 0) == text && i <= |text|
    ensures |text| < |m| && (m[i] == '\0' <==> i == |text|) && (i < |text| ==> m[i] == text[i])
  {
    S.TextIs(m, 0);
    S.CharAt(m, 0, i);
  }

  lemma LexStarts(m: seq<char>, text: string)
    requires S.Str(m, 0) && S.Text(m, 0) == text
    ensures Lexing(m, text, [], 0, 0, 0, false, [], Lex(text, []))
  {
    AtChar(m, text, 0);
    assert text[0..] == text;
  }

  lemma Assoc(a: seq<Token>, b: seq<Token>, c: seq<Token>, d: seq<Token>)
    ensures a + (b + c + d) == a + b + c + d && b + [] + d == b + d && a + b + [] + d == a + b + d
  {
    assert b + [] == b && a + b + [] == a + b;
  }

  // What one character does to the tokens: a blank or an operator ends the word, and any other
  // character extends it.
  lemma LexNext(m: seq<char>, text: string, done: seq<Token>, index: nat, i: nat, start: nat,
                inWord: bool, w: string, all: seq<Token>)
    requires S.Str(m, 0) && S.Text(m, 0) == text && i < |text|
    requires Lexing(m, text, done, index, i, start, inWord, w, all)
    ensures var op, next := Operator(text[i..]), index + |Flush(w)|;
      && start <= i < |text| < |m| && index == |done|
      && (inWord ==> w == m[start..i] && w != []) && (!inWord ==> w == [])
      && (White(m[i]) || op.Some? ==> next <= |all| && (inWord ==> index < |all|))
      && (op.Some? ==> op.value.1 > 0)
      && (White(m[i]) ==> Lexing(m, text, done + Flush(w), next, i + 1, start, false, [], all))
      && (!White(m[i]) && op.Some? && i + op.value.1 <= |text| ==>
        && next < |all|
        && Lexing(m, text, done + Flush(w) + [op.value.0], next + 1, i + op.value.1, start, false, [], all))
      && (!White(m[i]) && op.None? ==>
        Lexing(m, text, done, index, i + 1, if inWord then start else i, true, w + [m[i]], all))
  {
    AtChar(m, text, i);
    var s := text[i..];
    assert s[0] == text[i] && s[1..] == text[i + 1..];
    var op := Operator(s);
    hide S.Str, S.Len, S.Text;
    if White(m[i]) {
      Assoc(done, Flush(w), [], Lex(s[1..], []));
    } else if op.Some? {
      if i + op.value.1 <= |text| {
        assert s[op.value.1..] == text[i + op.value.1..];
        Assoc(done, Flush(w), [op.value.0], Lex(s[op.value.1..], []));
      }
    } else {
      assert m[(if inWord then start else i)..i + 1] == w + [m[i]];
    }
  }

  lemma LexEnds(m: seq<char>, text: string, done: seq<Token>, index: nat, current: nat, start: nat,
                inWord: bool, w: string, all: seq<Token>)
    requires Lexing(m, text, done, index, current, start, inWord, w, all) && current == |text|
    ensures all == done + Flush(w) && index + |Flush(w)| == |all| && start <= current <= |m| && index == |done|
    ensures (if inWord then w == m[start..current] && w != [] else w == []) && (inWord ==> index < |all|)
  {}

  class Parser {
    const tokens: array<Token>
    var count: nat
    var current: nat

    ghost predicate Valid()
      reads this
    {
      current <= count < tokens.Length
    }

    // The tokens still to come.
    ghost function Rest(): seq<Token>
      reads this, tokens
      requires Valid()
    {
      tokens[current..count]
    }

    constructor (tokens: array<Token>)
      requires tokens.Length > 0
      ensures Valid() && this.tokens == tokens && Rest() == []
    {
      this.tokens, count, current := tokens, 0, 0;
    }

    method PeekToken() returns (t: Token)
      requires Valid()
      modifies tokens
      ensures Valid() && Rest() == old(Rest())
      ensures t == if Rest() == [] then End else Rest()[0]
    {
      if current < count {
        return tokens[current];
      }
      tokens[count] := End;
      t := tokens[count];
    }

    method NextToken() returns (t: Token)
      requires Valid()
      modifies tokens, this`current
      ensures Valid()
      ensures t == if old(Rest()) == [] then End else old(Rest())[0]
      ensures Rest() == if old(Rest()) == [] then [] else old(Rest())[1..]
    {
      if current < count {
        current := current + 1;
        return tokens[current - 1];
      }
      tokens[count] := End;
      t := tokens[count];
    }

    method MatchToken(t: Token) returns (ok: bool)
      requires Valid()
      modifies this`current
      ensures Valid() && (ok <==> old(Rest()) != [] && old(Rest())[0] == t)
      ensures Rest() == if ok then old(Rest())[1..] else old(Rest())
    {
      if current < count && tokens[current] == t {
        current := current + 1;
        return true;
      }
      ok := false;
    }

    // Commands without backticks.
    method ParseSimpleCommand() returns (n: Option<Node>)
      requires Valid() && Backtick !in Rest()
      modifies tokens, this`current
      ensures Valid() && (n, Rest()) == PSimple(old(Rest()), []) && Backtick !in Rest()
    {
      var argv: seq<string> := [];
      ghost var was := Rest();
      while true
        invariant Valid() && Backtick !in Rest() && PSimple(Rest(), argv) == PSimple(was, [])
        decreases |Rest()|
      {
        var token := PeekToken();
        if token.End? || token.Bar? || token.And? || token.Or? || token.Semi? {
          break;
        }
        if token.Redirect? {
          var _ := NextToken();
          var file := NextToken();
          if !file.Word? || |argv| == 0 {
            return None;
          }
          return Some(Redir(token.kind, Command(argv), file.text));
        }
        assert Rest()[0] in Rest();
        var _ := NextToken();
        argv := argv + [token.text];
      }
      n := if |argv| == 0 then None else Some(Command(argv));
    }

    method ParsePipeline() returns (n: Option<Node>)
      requires Valid() && Backtick !in Rest()
      modifies tokens, this`current
      ensures Valid() && (n, Rest()) == PPipe(old(Rest())) && Backtick !in Rest()
    {
      hide PSimple;
      n := ParseSimpleCommand();
      if n.None? {
        return;
      }
      ghost var n0, r0 := n.value, Rest();
      while true
        invariant Valid() && Backtick !in Rest() && n.Some?
        invariant PipeRest(n0, r0) == PipeRest(n.value, Rest())
        decreases |Rest()|
      {
        var bar := MatchToken(Bar);
        if !bar {
          break;
        }
        var right := ParseSimpleCommand();
        if right.None? {
          return;
        }
        n := Some(Pipe(n.value, right.value));
      }
    }

    method ParseAndOr() returns (n: Option<Node>)
      requires Valid() && Backtick !in Rest()
      modifies tokens, this`current
      ensures Valid() && (n, Rest()) == PAndOr(old(Rest())) && Backtick !in Rest()
    {
      hide PPipe;
      n := ParsePipeline();
      if n.None? {
        return;
      }
      ghost var n0, r0 := n.value, Rest();
      while true
        invariant Valid() && Backtick !in Rest() && n.Some?
        invariant AndOrRest(n0, r0) == AndOrRest(n.value, Rest())
        decreases |Rest()|
      {
        var isAnd := MatchToken(And);
        if isAnd {
          var right := ParsePipeline();
          if right.None? {
            return;
          }
          n := Some(AndThen(n.value, right.value));
        } else {
          var isOr := MatchToken(Or);
          if !isOr {
            break;
          }
          var right := ParsePipeline();
          if right.None? {
            return;
          }
          n := Some(OrElse(n.value, right.value));
        }
      }
    }

    method ParseCommand() returns (n: Option<Node>)
      requires Valid() && Backtick !in Rest()
      modifies tokens, this`current
      ensures Valid() && (n, Rest()) == PCommand(old(Rest())) && Backtick !in Rest()
    {
      hide PAndOr;
      n := ParseAndOr();
      if n.None? {
        return;
      }
      ghost var n0, r0 := n.value, Rest();
      while true
        invariant Valid() && Backtick !in Rest() && n.Some?
        invariant SeqRest(n0, r0) == SeqRest(n.value, Rest())
        decreases |Rest()|
      {
        var semi := MatchToken(Semi);
        if !semi {
          break;
        }
        var right := ParseAndOr();
        if right.None? {
          return;
        }
        n := Some(Seq(n.value, right.value));
      }
    }

    // The first pass: counts tokens and cuts the input at a comment. text is what remains.
    method CountPass(input: array<char>) returns (total: nat, ghost text: string)
      requires S.Str(input[..], 0)
      modifies input
      ensures text == Uncomment(old(S.Text(input[..], 0))) && total == Count(text, false)
      ensures S.Str(input[..], 0) && S.Text(input[..], 0) == text
    {
      ghost var m, s := input[..], S.Text(input[..], 0);
      S.TextIs(m, 0);
      UncommentIs(s);
      text := Uncomment(s);
      var current: nat, inWord := 0, false;
      total := 0;
      S.CharAt(m, 0, 0);
      hide S.Str, S.Len, S.Text, Uncomment;
      while input[current] != '\0' && input[current] != '#'
        invariant current <= |text| && input[..] == m
        invariant total + Count(text[current..], inWord) == Count(text, false)
        decreases |text| - current
      {
        S.CharAt(m, 0, current);
        assert text[current..][0] == input[current] && text[current..][1..] == text[current + 1..];
        if White(input[current]) {
          if inWord {
            total := total + 1;
            inWord := false;
          }
        } else if Symbol(input[current]) {
          if inWord {
            total := total + 1;
          }
          total := total + 1;
          inWord := false;
        } else {
          inWord := true;
        }
        current := current + 1;
      }
      S.CharAt(m, 0, current);
      Stopped(s, text, current);
      if input[current] == '#' {
        input[current] := '\0';
        S.Truncated(m, input[..], 0, current);
      }
      if inWord {
        total := total + 1;
      }
    }

    // The operator that starts at input[i], by the chain of tests in the second pass.
    method OperatorAt(input: array<char>, i: nat, ghost text: string) returns (op: Option<(Token, nat)>)
      requires S.Str(input[..], 0) && S.Text(input[..], 0) == text && i < |text|
      ensures op == Operator(text[i..]) && (op.Some? ==> i + op.value.1 <= |text|)
    {
      S.TextIs(input[..], 0);
      S.CharAt(input[..], 0, i);
      S.CharAt(input[..], 0, i + 1);
      assert text[i..][0] == input[i] && (i + 1 < |text| ==> text[i..][1] == input[i + 1]);
      hide S.Str, S.Len, S.Text;
      if input[i] == '|' && input[i + 1] == '|' {
        op := Some((Or, 2));
      } else if input[i] == '|' {
        op := Some((Bar, 1));
      } else if input[i] == '&' && input[i + 1] == '&' {
        op := Some((And, 2));
      } else if input[i] == ';' {
        op := Some((Semi, 1));
      } else if input[i] == '<' {
        op := Some((Redirect(In), 1));
      } else if input[i] == '>' && input[i + 1] == '>' {
        op := Some((Redirect(Append), 2));
      } else if input[i] == '>' {
        op := Some((Redirect(Out), 1));
      } else if input[i] == '`' {
        op := Some((Backtick, 1));
      } else {
        op := None;
      }
    }

    method PushToken(index: nat, t: Token)
      requires index < tokens.Length
      modifies tokens
      ensures tokens[..index + 1] == old(tokens[..index]) + [t]
    {
      tokens[index] := t;
    }

    // The word that has just ended, if there is one.
    method PushWord(index: nat, input: array<char>, start: nat, current: nat, inWord: bool, ghost w: string)
      returns (next: nat)
      requires start <= current <= input.Length && (inWord ==> index < tokens.Length) && index <= tokens.Length
      requires if inWord then w == input[..][start..current] && w != [] else w == []
      modifies tokens
      ensures next == index + |Flush(w)| <= tokens.Length && tokens[..next] == old(tokens[..index]) + Flush(w)
    {
      next := index;
      if inWord {
        assert input[start..current] == input[..][start..current];
        PushToken(index, Word(input[start..current]));
        next := index + 1;
      }
    }

    method PushOperator(index: nat, t: Token, ghost done: seq<Token>) returns (next: nat)
      requires index < tokens.Length && tokens[..index] == done
      modifies tokens
      ensures next == index + 1 && tokens[..next] == done + [t]
    {
      PushToken(index, t);
      next := index + 1;
    }

    // One turn of the second pass's loop.
    method LexOne(input: array<char>, index0: nat, current0: nat, start0: nat, inWord0: bool,
                  ghost text: string, ghost done0: seq<Token>, ghost w0: string, ghost all: seq<Token>)
      returns (index: nat, current: nat, start: nat, inWord: bool, ghost done: seq<Token>, ghost w: string)
      requires S.Str(input[..], 0) && S.Text(input[..], 0) == text && current0 < |text| < input.Length
      requires Lexing(input[..], text, done0, index0, current0, start0, inWord0, w0, all)
      requires index0 <= |all| <= tokens.Length && tokens[..index0] == done0
      modifies tokens
      ensures Lexing(input[..], text, done, index, current, start, inWord, w, all) && current > current0
      ensures index <= tokens.Length && tokens[..index] == done
    {
      hide *;
      ghost var m := input[..];
      LexNext(m, text, done0, index0, current0, start0, inWord0, w0, all);
      var op := OperatorAt(input, current0, text);
      index, current, start, inWord, done, w := index0, current0, start0, inWord0, done0, w0;
      if White(input[current0]) {
        index := PushWord(index, input, start, current, inWord, w);
        inWord, done, w := false, done + Flush(w), [];
        current := current + 1;
      } else if op.Some? {
        index := PushWord(index, input, start, current, inWord, w);
        index := PushOperator(index, op.value.0, done + Flush(w));
        inWord, done, w := false, done + Flush(w) + [op.value.0], [];
        current := current + op.value.1;
      } else {
        if !inWord {
          start := current;
          inWord := true;
        }
        w := w + [input[current]];
        current := current + 1;
      }
    }

    // The second pass never runs past what the first one counted.
    method LexPass(input: array<char>, total: nat, ghost text: string) returns (index: nat)
      requires S.Str(input[..], 0) && S.Text(input[..], 0) == text && total == Count(text, false) <= tokens.Length
      modifies tokens
      ensures index <= total && tokens[..index] == Lex(text, [])
    {
      ghost var m, all, done: seq<Token>, w: string := input[..], Lex(text, []), [], [];
      LexWithinCount(text, []);
      LexStarts(m, text);
      AtChar(m, text, 0);
      hide *;
      var current: nat, start: nat, inWord := 0, 0, false;
      index := 0;
      while input[current] != '\0'
        invariant index <= |all| <= tokens.Length && input[..] == m
        invariant Lexing(m, text, done, index, current, start, inWord, w, all)
        invariant current <= |text| < input.Length && (input[current] == '\0' <==> current == |text|)
        invariant index <= tokens.Length && tokens[..index] == done
        decreases |text| - current
      {
        index, current, start, inWord, done, w := LexOne(input, index, current, start, inWord, text, done, w, all);
        InText(m, text, done, index, current, start, inWord, w, all);
        AtChar(m, text, current);
      }
      LexEnds(m, text, done, index, current, start, inWord, w, all);
      index := PushWord(index, input, start, current, inWord, w);
    }

    // tokenize, with the cursor reset by init_for_cmd.
    method Tokenize(input: array<char>)
      requires S.Str(input[..], 0)
      requires Count(Uncomment(S.Text(input[..], 0)), false) < tokens.Length
      modifies this, tokens, input
      ensures Valid() && Rest() == Tokens(old(S.Text(input[..], 0)))
    {
      ghost var s := S.Text(input[..], 0);
      var total, text := CountPass(input);
      var index := LexPass(input, total, text);
      hide S.Str, S.Len, S.Text, Lex, Count, Uncomment;
      count, current := total, 0;
      if index < total {
        tokens[index] := End;
        count := index + 1;
      }
      assert tokens[..index] == Lex(text, []);
      assert Rest() == tokens[..count];
    }
  }
}
