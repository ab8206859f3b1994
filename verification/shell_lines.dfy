// Command lines that are not written the way Shell.Print writes trees: operators with nothing behind
// them, redirections out of place, comments, and blanks left out or doubled (user/sh.c).
module ShellLines {
  import opened Common
  import opened Shell

  predicate IsOperator(t: Token) { t.Bar? || t.And? || t.Or? || t.Semi? }

  // How tightly an operator binds.
  function Level(t: Token): nat { match t case Bar => 3 case And => 2 case Or => 2 case Semi => 1 case _ => 0 }

  // t binds tighter than the operator that follows.
  predicate Tighter(t: Token, rest: seq<Token>) { rest != [] && IsOperator(rest[0]) && Level(t) > Level(rest[0]) }

  // No command can be read from toks, and rest is left of them.
  predicate Fails(toks: seq<Token>, rest: seq<Token>) { PSimple(toks, []) == (None, rest) }

  lemma FailsAbove(toks: seq<Token>, rest: seq<Token>)
    requires Fails(toks, rest)
    ensures PPipe(toks) == (None, rest) && PAndOr(toks) == (None, rest) && PCommand(toks) == (None, rest)
  {
    hide PSimple;
  }

  // Where a command is missing there is none to read, and nothing is taken.
  lemma StopsFail(toks: seq<Token>)
    requires Stops(toks)
    ensures Fails(toks, toks)
  {
  }

  // Words, a redirection, and what comes behind it.
  lemma RedirectReads(argv: seq<string>, kind: Kind, toks: seq<Token>)
    ensures var r := PSimple(Words(argv) + [Redirect(kind)] + toks, []);
      && (toks == [] ==> r == (None, []))
      && (toks != [] && (!toks[0].Word? || argv == []) ==> r == (None, toks[1..]))
      && (toks != [] && toks[0].Word? && argv != [] ==>
            r == (Some(Redir(kind, Command(argv), toks[0].text)), toks[1..]))
  {
    var tail := [Redirect(kind)] + toks;
    assert Words(argv) + [Redirect(kind)] + toks == Words(argv) + tail;
    WordsParse(argv, [], tail);
    assert [] + argv == argv && tail[1..] == toks;
  }

  // As a whole line: without a word behind it or a command in front the line is refused, and behind
  // the file name nothing more is read but an operator.
  lemma RedirectLine(argv: seq<string>, kind: Kind, toks: seq<Token>)
    ensures var r := PCommand(Words(argv) + [Redirect(kind)] + toks);
      && (toks == [] ==> r == (None, []))
      && (toks != [] && (!toks[0].Word? || argv == []) ==> r == (None, toks[1..]))
      && (toks != [] && toks[0].Word? && argv != [] && (|toks| == 1 || !IsOperator(toks[1])) ==>
            r == (Some(Redir(kind, Command(argv), toks[0].text)), toks[1..]))
  {
    RedirectReads(argv, kind, toks);
    hide PSimple, Words;
  }

  // Which tree each operator makes of two commands.
  function Joined(t: Token, a: Node, b: Node): Node
    requires IsOperator(t)
  {
    match t case Bar => Pipe(a, b) case And => AndThen(a, b) case Or => OrElse(a, b) case _ => Seq(a, b)
  }

  lemma OneCommand(a: string, rest: seq<Token>)
    requires Stops(rest)
    ensures PSimple([Word(a)] + rest, []) == (Some(Command([a])), rest)
  {
    assert ([Word(a)] + rest)[1..] == rest && [] + [a] == [a];
  }

  lemma OneWord(a: string)
    ensures PSimple([Word(a)], []) == (Some(Command([a])), [])
    ensures PPipe([Word(a)]) == (Some(Command([a])), []) && PAndOr([Word(a)]) == (Some(Command([a])), [])
  {
    OneCommand(a, []);
    assert [Word(a)] + [] == [Word(a)];
    hide PSimple;
  }

  lemma JoinedReads(a: string, t: Token, b: string)
    requires IsOperator(t)
    ensures PCommand([Word(a)] + [t, Word(b)]) == (Some(Joined(t, Command([a]), Command([b]))), [])
  {
    OneCommand(a, [t, Word(b)]);
    OneWord(b);
    assert [t, Word(b)][1..] == [Word(b)];
    hide PSimple;
    var ca, cb := Command([a]), Command([b]);
    if t.Bar? {
      assert PipeRest(ca, [t, Word(b)]) == (Pipe(ca, cb), []);
    } else if !t.Semi? {
      assert PPipe([Word(a)] + [t, Word(b)]) == (Some(ca), [t, Word(b)]);
      hide PPipe;
      assert AndOrRest(ca, [t, Word(b)]) == (Joined(t, ca, cb), []);
    } else {
      assert PAndOr([Word(a)] + [t, Word(b)]) == (Some(ca), [t, Word(b)]);
      hide PAndOr;
      assert SeqRest(ca, [t, Word(b)]) == (Seq(ca, cb), []);
    }
  }

  lemma TwoCommands(a: string, b: string)
    ensures var ca, cb := Command([a]), Command([b]);
      && PCommand([Word(a), Bar, Word(b)]) == (Some(Pipe(ca, cb)), [])
      && PCommand([Word(a), And, Word(b)]) == (Some(AndThen(ca, cb)), [])
      && PCommand([Word(a), Or, Word(b)]) == (Some(OrElse(ca, cb)), [])
      && PCommand([Word(a), Semi, Word(b)]) == (Some(Seq(ca, cb)), [])
  {
    JoinedReads(a, Bar, b);
    JoinedReads(a, And, b);
    JoinedReads(a, Or, b);
    JoinedReads(a, Semi, b);
    hide PCommand, IsOperator, Level;
    forall t: Token ensures [Word(a)] + [t, Word(b)] == [Word(a), t, Word(b)] {}
  }

  lemma Behind(a: seq<Token>, t: Token, b: seq<Token>)
    ensures a + [t] + b == a + ([t] + b) && ([t] + b)[1..] == b && ([t] + b)[0] == t
  {
  }

  lemma PipeDangles(n: Node, toks: seq<Token>, rest: seq<Token>)
    requires IsPipeline(n) && Fails(toks, rest)
    ensures PPipe(Print(n) + [Bar] + toks) == (Some(n), rest)
  {
    Behind(Print(n), Bar, toks);
    PipeParses(n, [Bar] + toks);
  }

  // An operator of a list with no command behind it is dropped.
  lemma AndOrDangles(n: Node, t: Token, toks: seq<Token>, rest: seq<Token>)
    requires IsAndOr(n) && (t.And? || t.Or?) && Fails(toks, rest)
    ensures PAndOr(Print(n) + [t] + toks) == (Some(n), rest)
  {
    Behind(Print(n), t, toks);
    FailsAbove(toks, rest);
    hide PSimple, PPipe;
    AndOrParses(n, [t] + toks);
  }

  // A bar of a list's last pipeline with no command behind it is dropped, and the list goes on.
  lemma BarDangles(n: Node, toks: seq<Token>, rest: seq<Token>)
    requires IsAndOr(n) && Fails(toks, rest)
    ensures PAndOr(Print(n) + [Bar] + toks) == (Some(AndOrRest(n, rest).0), AndOrRest(n, rest).1)
  {
    if IsPipeline(n) {
      PipeDangles(n, toks, rest);
    } else {
      var t := if n.AndThen? then And else Or;
      var tail := [t] + (Print(n.right) + ([Bar] + toks));
      Behind(Print(n), Bar, toks);
      Regroup(Print(n.left), t, Print(n.right), [Bar] + toks);
      Behind(Print(n.right), Bar, toks);
      Behind([], t, Print(n.right) + ([Bar] + toks));
      AndOrParses(n.left, tail);
      PipeDangles(n.right, toks, rest);
      hide PSimple, PPipe;
    }
  }

  lemma LastList(n: Node) returns (m: Node)
    requires IsSeq(n)
    ensures m == (if IsAndOr(n) then n else n.right) && IsAndOr(m)
  {
    m := if IsAndOr(n) then n else n.right;
  }

  // The last list ahead of a, read as ahead of b, makes the whole line read alike.
  lemma ReadAlike(n: Node, a: seq<Token>, b: seq<Token>)
    requires IsSeq(n)
    requires var m := if IsAndOr(n) then n else n.right; PAndOr(Print(m) + a) == PAndOr(Print(m) + b)
    ensures PCommand(Print(n) + a) == PCommand(Print(n) + b)
  {
    if !IsAndOr(n) {
      SeqAhead(n, a);
      SeqAhead(n, b);
    }
  }

  // A sequence is read up to its last list.
  lemma SeqAhead(n: Node, a: seq<Token>)
    requires IsSeq(n) && !IsAndOr(n)
    ensures PCommand(Print(n) + a) ==
            var (right, rest) := PAndOr(Print(n.right) + a);
            if right.None? then (Some(n.left), rest)
            else (Some(SeqRest(Seq(n.left, right.value), rest).0), SeqRest(Seq(n.left, right.value), rest).1)
  {
    var tail := [Semi] + (Print(n.right) + a);
    Regroup(Print(n.left), Semi, Print(n.right), a);
    Behind([], Semi, Print(n.right) + a);
    hide PAndOr;
    SeqParses(n.left, tail);
  }

  lemma ListDangles(m: Node, t: Token, toks: seq<Token>, rest: seq<Token>)
    requires IsAndOr(m) && IsOperator(t) && !t.Semi? && Fails(toks, rest)
    ensures PAndOr(Print(m) + [t] + toks) ==
            if Tighter(t, rest) then PAndOr(Print(m) + rest) else (Some(m), rest)
  {
    if t.Bar? { BarDangles(m, toks, rest); } else { AndOrDangles(m, t, toks, rest); }
    if Tighter(t, rest) { AndOrParses(m, rest); }
  }

  lemma SemiDangles(n: Node, toks: seq<Token>, rest: seq<Token>)
    requires IsSeq(n) && Fails(toks, rest)
    ensures PCommand(Print(n) + [Semi] + toks) == (Some(n), rest)
  {
    Behind(Print(n), Semi, toks);
    FailsAbove(toks, rest);
    hide PAndOr, PSimple, EndsRedirected;
    SeqParses(n, [Semi] + toks);
  }

  lemma GoesOn(n: Node, t: Token, toks: seq<Token>, rest: seq<Token>)
    requires IsSeq(n) && IsOperator(t) && !t.Semi? && Fails(toks, rest) && Tighter(t, rest)
    ensures PCommand(Print(n) + ([t] + toks)) == PCommand(Print(n) + rest)
  {
    var m := LastList(n);
    Behind(Print(m), t, toks);
    ListDangles(m, t, toks, rest);
    hide PAndOr, PCommand, PSimple, Print, Tighter, EndsRedirected;
    ReadAlike(n, [t] + toks, rest);
  }

  lemma EndsThere(n: Node, t: Token, toks: seq<Token>, rest: seq<Token>)
    requires IsSeq(n) && IsOperator(t) && !t.Semi? && Fails(toks, rest) && !Tighter(t, rest)
    ensures PCommand(Print(n) + ([t] + toks)) == (Some(n), rest)
  {
    var m := LastList(n);
    Behind(Print(m), t, toks);
    ListDangles(m, t, toks, rest);
    hide PAndOr, PSimple, Print, EndsRedirected;
    if !IsAndOr(n) {
      SeqAhead(n, [t] + toks);
      assert Seq(n.left, n.right) == n;
    }
  }

  // The line n t toks where no command can be read from toks: the operator is dropped, and the line
  // goes on if t bound tighter than the operator that follows; else it is n, with the rest left.
  lemma Dangles(n: Node, t: Token, toks: seq<Token>, rest: seq<Token>)
    requires IsSeq(n) && IsOperator(t) && Fails(toks, rest)
    ensures PCommand(Print(n) + [t] + toks) ==
            if Tighter(t, rest) then PCommand(Print(n) + rest) else (Some(n), rest)
  {
    hide PCommand, PSimple, Print, IsSeq;
    if t.Semi? {
      SemiDangles(n, toks, rest);
    } else {
      Behind(Print(n), t, toks);
      if Tighter(t, rest) { GoesOn(n, t, toks, rest); } else { EndsThere(n, t, toks, rest); }
    }
  }

  // A line that ends in an operator, with or without the end token, is the line without it.
  lemma TrailingOperator(n: Node, t: Token, end: seq<Token>)
    requires IsSeq(n) && IsOperator(t) && (end == [] || end == [End])
    ensures PCommand(Print(n) + [t] + end) == (Some(n), end)
  {
    StopsFail(end);
    Dangles(n, t, end, end);
  }

  // Whatever is no operator behind a redirection ends the line there, and is left.
  lemma LeftBehind(n: Node, rest: seq<Token>)
    requires IsSeq(n) && EndsRedirected(n) && (rest == [] || !IsOperator(rest[0]))
    ensures PCommand(Print(n) + rest) == (Some(n), rest)
  {
    hide PAndOr;
    SeqParses(n, rest);
  }

  // Blanks and comments.

  predicate Blank(g: string) { forall i :: 0 <= i < |g| ==> g[i] in " \t\r\n" }

  lemma WordCharIs(c: char)
    ensures WordChar(c) <==> c !in " \t\r\n|;<>`#" && c != '\0'
  {
    var special := " \t\r\n|;<>`#";
    assert special[0] == ' ' && special[1] == '\t' && special[2] == '\r' && special[3] == '\n' && special[4] == '|';
    assert special[5] == ';' && special[6] == '<' && special[7] == '>' && special[8] == '`' && special[9] == '#';
  }

  // Tokens with a gap in front of each and behind the last.
  function Spaced(toks: seq<Token>, gaps: seq<string>): string
    requires |gaps| == |toks| + 1
  {
    if toks == [] then gaps[0] else gaps[0] + Spell(toks[0]) + Spaced(toks[1..], gaps[1..])
  }

  // t and u run together when nothing stands between them.
  predicate RunTogether(t: Token, u: Token) {
    || (t.Word? && u.Word?)
    || (t.Word? && t.text != [] && t.text[|t.text| - 1] == '&' && u.And?)
    || (t.Bar? && (u.Bar? || u.Or?))
    || (t == Redirect(Out) && (u == Redirect(Out) || u == Redirect(Append)))
  }

  predicate WellSpaced(toks: seq<Token>, gaps: seq<string>)
    requires |gaps| == |toks| + 1
  {
    && (forall i :: 0 <= i < |toks| ==> Legit(toks[i]))
    && (forall i :: 0 <= i < |gaps| ==> Blank(gaps[i]))
    && (forall i :: 0 < i < |toks| && RunTogether(toks[i - 1], toks[i]) ==> gaps[i] != [])
  }

  lemma {:induction false} LexGap(g: string, s: string)
    requires Blank(g)
    ensures Lex(g + s, []) == Lex(s, [])
    decreases |g|
  {
    if g == [] {
      assert g + s == s;
    } else {
      WhiteIs(g[0]);
      LexGap(g[1..], s);
      assert (g + s)[0] == g[0] && (g + s)[1..] == g[1..] + s;
      assert Flush([]) + Lex(g[1..] + s, []) == Lex(g[1..] + s, []);
    }
  }

  // What ends a word whose last character is c.
  predicate EndsWord(c: char, s: string) {
    s == [] || White(s[0]) || (Operator(s).Some? && !(c == '&' && s[0] == '&'))
  }

  lemma {:induction false} LexWordThen(u: string, w: string, s: string)
    requires WordTail(u) && u != [] && EndsWord(u[|u| - 1], s)
    ensures Lex(u + s, w) == [Word(w + u)] + Lex(s, [])
    decreases |u|
  {
    var t := u + s;
    assert t[0] == u[0] && t[1..] == u[1..] + s;
    assert Operator(t).None?;
    if |u| == 1 {
      assert u[1..] + s == s && w + [u[0]] == w + u;
      WordEnds(w + u, s);
    } else {
      LexWordThen(u[1..], w + [u[0]], s);
      assert w + [u[0]] + u[1..] == w + u;
    }
  }

  lemma Assoc<T>(a: seq<T>, x: T, b: seq<T>)
    ensures a + [x] + b == a + ([x] + b)
  {
  }

  // What the tokenizer finds from a blank or an operator on.
  function FromHere(s: string): seq<Token>
    requires s != [] && (White(s[0]) || Operator(s).Some?)
  {
    if White(s[0]) then Lex(s[1..], [])
    else
      var (op, n) := Operator(s).value;
      [op] + if n <= |s| then Lex(s[n..], []) else []
  }

  lemma FlushFirst(s: string, w: string)
    requires s != [] && (White(s[0]) || Operator(s).Some?)
    ensures Lex(s, w) == Flush(w) + FromHere(s)
  {
    hide Operator, White, Flush;
    if !White(s[0]) {
      var (op, n) := Operator(s).value;
      Assoc(Flush(w), op, if n <= |s| then Lex(s[n..], []) else []);
    }
  }

  lemma WordEnds(w: string, s: string)
    requires w != [] && (s == [] || White(s[0]) || Operator(s).Some?)
    ensures Lex(s, w) == [Word(w)] + Lex(s, [])
  {
    assert Flush(w) == [Word(w)] && Flush([]) == [];
    if s == [] {
      assert Lex(s, w) == Flush(w) && Lex(s, []) == Flush([]);
    } else {
      FlushFirst(s, w);
      FlushFirst(s, []);
      hide *;
      assert [] + FromHere(s) == FromHere(s);
    }
  }

  // What does not lengthen operator t.
  predicate EndsOperator(t: Token, s: string) {
    s == [] || ((t.Bar? ==> s[0] != '|') && (t == Redirect(Out) ==> s[0] != '>'))
  }

  lemma LexOperatorThen(t: Token, s: string)
    requires Legit(t) && !t.Word? && EndsOperator(t, s)
    ensures Lex(Spell(t) + s, []) == [t] + Lex(s, [])
  {
    var text, n := Spell(t) + s, |Spell(t)|;
    assert Operator(text) == Some((t, n)) && text[n..] == s && !White(text[0]);
    LexOperator(text, t, n);
  }

  lemma SpellStarts(t: Token)
    requires Legit(t)
    ensures Spell(t) != [] && !White(Spell(t)[0])
    ensures t.Word? ==> WordTail(t.text) && Spell(t) == t.text
    ensures !t.Word? ==> forall s: string :: Operator(Spell(t) + s).Some?
    ensures Spell(t)[0] == '|' <==> t.Bar? || t.Or?
    ensures Spell(t)[0] == '>' <==> t == Redirect(Out) || t == Redirect(Append)
    ensures !t.Word? ==> (Spell(t)[0] == '&' <==> t.And?)
  {
  }

  // A token that stands right behind t does not run into it.
  lemma NextParts(t: Token, u: Token, rest: string)
    requires Legit(t) && Legit(u) && !RunTogether(t, u)
    ensures t.Word? ==> EndsWord(t.text[|t.text| - 1], Spell(u) + rest)
    ensures !t.Word? ==> EndsOperator(t, Spell(u) + rest)
  {
    SpellStarts(u);
    var s := Spell(u) + rest;
    assert s != [] && s[0] == Spell(u)[0];
    hide Spell, Operator, White, WordTail;
  }

  lemma GapParts(t: Token, g: string, rest: string)
    requires Legit(t) && Blank(g) && g != []
    ensures t.Word? ==> EndsWord(t.text[|t.text| - 1], g + rest)
    ensures !t.Word? ==> EndsOperator(t, g + rest)
  {
    WhiteIs(g[0]);
    assert (g + rest)[0] == g[0];
  }

  // The text behind t does not run into it.
  lemma TextParts(t: Token, toks: seq<Token>, gaps: seq<string>)
    requires Legit(t) && |gaps| == |toks| + 1 && WellSpaced(toks, gaps)
    requires toks != [] && RunTogether(t, toks[0]) ==> gaps[0] != []
    ensures t.Word? ==> EndsWord(t.text[|t.text| - 1], Spaced(toks, gaps))
    ensures !t.Word? ==> EndsOperator(t, Spaced(toks, gaps))
  {
    assert Blank(gaps[0]);
    SpacedIs(toks, gaps);
    if toks != [] { assert Legit(toks[0]); }
    hide *;
    if gaps[0] != [] {
      GapParts(t, gaps[0], if toks == [] then [] else Spell(toks[0]) + Spaced(toks[1..], gaps[1..]));
    } else if toks == [] {
      NothingParts(t);
    } else {
      NextParts(t, toks[0], Spaced(toks[1..], gaps[1..]));
    }
  }

  lemma SpacedIs(toks: seq<Token>, gaps: seq<string>)
    requires |gaps| == |toks| + 1
    ensures var rest := if toks == [] then [] else Spell(toks[0]) + Spaced(toks[1..], gaps[1..]);
            Spaced(toks, gaps) == gaps[0] + rest && (gaps[0] == [] ==> Spaced(toks, gaps) == rest)
  {
    hide Spell;
    if toks != [] {
      var a, b, c := gaps[0], Spell(toks[0]), Spaced(toks[1..], gaps[1..]);
      assert a + b + c == a + (b + c);
    }
  }

  lemma NothingParts(t: Token)
    requires Legit(t)
    ensures t.Word? ==> EndsWord(t.text[|t.text| - 1], [])
    ensures !t.Word? ==> EndsOperator(t, [])
  {
  }

  lemma WellSpacedTail(toks: seq<Token>, gaps: seq<string>)
    requires |gaps| == |toks| + 1 && WellSpaced(toks, gaps) && toks != []
    ensures WellSpaced(toks[1..], gaps[1..]) && Legit(toks[0]) && Blank(gaps[0])
    ensures toks[1..] != [] && RunTogether(toks[0], toks[1..][0]) ==> gaps[1..][0] != []
  {
    hide RunTogether, Legit, Blank;
    assert forall i :: 0 <= i < |toks| - 1 ==> toks[1..][i] == toks[i + 1];
    assert forall i :: 0 <= i < |gaps| - 1 ==> gaps[1..][i] == gaps[i + 1];
    if toks[1..] != [] { assert RunTogether(toks[1 - 1], toks[1]) ==> gaps[1] != []; }
  }

  // However the tokens are spaced, as long as none runs into the next, the tokenizer finds them.
  lemma {:induction false} LexSpaced(toks: seq<Token>, gaps: seq<string>)
    requires |gaps| == |toks| + 1 && WellSpaced(toks, gaps)
    ensures Lex(Spaced(toks, gaps), []) == toks
    decreases |toks|
  {
    if toks == [] {
      LexGap(gaps[0], []);
      assert gaps[0] + [] == gaps[0] && Lex([], []) == [];
    } else {
      var t, rest := toks[0], Spaced(toks[1..], gaps[1..]);
      WellSpacedTail(toks, gaps);
      SpacedIs(toks, gaps);
      hide *;
      LexSpaced(toks[1..], gaps[1..]);
      TextParts(t, toks[1..], gaps[1..]);
      LexGap(gaps[0], Spell(t) + rest);
      LexFirst(t, rest);
    }
  }

  // A token is taken off the front of a text that does not run into it.
  lemma LexFirst(t: Token, rest: string)
    requires Legit(t)
    requires t.Word? ==> EndsWord(t.text[|t.text| - 1], rest)
    requires !t.Word? ==> EndsOperator(t, rest)
    ensures Lex(Spell(t) + rest, []) == [t] + Lex(rest, [])
  {
    SpellStarts(t);
    hide Lex, EndsWord, EndsOperator, Operator;
    if t.Word? {
      LexWordThen(t.text, [], rest);
      assert [] + t.text == t.text;
    } else {
      LexOperatorThen(t, rest);
    }
  }

  lemma {:induction false} CommentCut(text: string, comment: string)
    requires '#' !in text && (comment == [] || comment[0] == '#')
    ensures Uncomment(text + comment) == text
  {
    if text == [] {
      assert text + comment == comment;
    } else {
      CommentCut(text[1..], comment);
      assert (text + comment)[1..] == text[1..] + comment;
    }
  }

  lemma SpellPlain(t: Token)
    requires Legit(t)
    ensures '#' !in Spell(t)
  {
  }

  lemma {:induction false} SpacedPlain(toks: seq<Token>, gaps: seq<string>)
    requires |gaps| == |toks| + 1 && WellSpaced(toks, gaps)
    ensures '#' !in Spaced(toks, gaps)
    decreases |toks|
  {
    assert '#' !in gaps[0] by { assert Blank(gaps[0]); }
    SpacedIs(toks, gaps);
    if toks != [] {
      WellSpacedTail(toks, gaps);
      SpellPlain(toks[0]);
      hide *;
      SpacedPlain(toks[1..], gaps[1..]);
    }
  }

  // A line a user may type for tree n: spaced at will, with or without a comment behind it.
  lemma LineReads(n: Node, gaps: seq<string>, comment: string)
    requires IsSeq(n) && |gaps| == |Print(n)| + 1 && WellSpaced(Print(n), gaps)
    requires comment == [] || comment[0] == '#'
    ensures var (r, rest) := PCommand(Tokens(Spaced(Print(n), gaps) + comment));
      r == Some(n) && (rest == [] || rest == [End])
  {
    SpacedPlain(Print(n), gaps);
    CommentCut(Spaced(Print(n), gaps), comment);
    LexSpaced(Print(n), gaps);
    hide Lex, Spaced, PCommand, Print, WellSpaced;
    SeqParses(n, []);
    SeqParses(n, [End]);
    assert Print(n) + [] == Print(n);
  }

  lemma OneOperator(t: Token)
    requires Legit(t) && !t.Word?
    ensures Lex(Spell(t), []) == [t]
  {
    LexOperatorThen(t, []);
    assert Spell(t) + [] == Spell(t) && Lex([], []) == [];
  }

  lemma OneSymbol(c: char)
    requires c == '&' || c == '('
    ensures Lex([c], []) == [Word([c])]
  {
    assert [c][1..] == [] && [] + [c] == [c] && Lex([], [c]) == [Word([c])];
  }

  // The characters that make each operator; a single '&' and a parenthesis are words.
  lemma OperatorsRead()
    ensures Lex("|", []) == [Bar] && Lex("||", []) == [Or] && Lex("&&", []) == [And] && Lex(";", []) == [Semi]
    ensures Lex("<", []) == [Redirect(In)] && Lex(">", []) == [Redirect(Out)] && Lex(">>", []) == [Redirect(Append)]
    ensures Lex("&", []) == [Word("&")] && Lex("(", []) == [Word("(")]
  {
    hide Lex;
    OneOperator(Bar);
    OneOperator(Or);
    OneOperator(And);
    OneOperator(Semi);
    OneOperator(Redirect(In));
    OneOperator(Redirect(Out));
    OneOperator(Redirect(Append));
    OneSymbol('&');
    OneSymbol('(');
    assert "&" == ['&'] && "(" == ['('];
  }

  // The first pass.

  predicate NoSymbols(u: string) { forall i :: 0 <= i < |u| ==> !White(u[i]) && u[i] !in "<|>&;()`" }

  lemma SymbolIs(c: char)
    ensures Symbol(c) <==> c in "<|>&;()`"
  {
    var symbols := "<|>&;()`";
    assert symbols[0] == '<' && symbols[1] == '|' && symbols[2] == '>' && symbols[3] == '&' && symbols[4] == ';';
    assert symbols[5] == '(' && symbols[6] == ')' && symbols[7] == '`';
  }

  lemma {:induction false} CountGap(g: string, s: string)
    requires Blank(g)
    ensures Count(g + s, false) == Count(s, false)
    decreases |g|
  {
    if g == [] {
      assert g + s == s;
    } else {
      WhiteIs(g[0]);
      CountGap(g[1..], s);
      assert (g + s)[0] == g[0] && (g + s)[1..] == g[1..] + s;
    }
  }

  lemma {:induction false} CountPlain(u: string, inWord: bool, s: string)
    requires NoSymbols(u) && (inWord || u != []) && (s == [] || White(s[0]) || Symbol(s[0]))
    ensures Count(u + s, inWord) == 1 + Count(s, false)
    decreases |u|
  {
    if u == [] {
      assert u + s == s;
    } else {
      SymbolIs(u[0]);
      assert (u + s)[0] == u[0] && (u + s)[1..] == u[1..] + s;
      CountPlain(u[1..], true, s);
    }
  }

  lemma CountOperator(t: Token, s: string)
    requires Legit(t) && !t.Word?
    ensures Count(Spell(t) + s, false) == |Spell(t)| + Count(s, false)
  {
    var text := Spell(t) + s;
    if |Spell(t)| == 1 {
      assert text[1..] == s;
    } else {
      assert text[1..][1..] == s && text[1..][0] == text[1];
    }
  }

  lemma CountFirst(t: Token, rest: string)
    requires Legit(t) && (t.Word? ==> NoSymbols(t.text))
    requires t.Word? ==> rest == [] || White(rest[0]) || Symbol(rest[0])
    ensures Count(Spell(t) + rest, false) == (if t.Word? then 1 else |Spell(t)|) + Count(rest, false)
  {
    if t.Word? { CountPlain(t.text, false, rest); } else { CountOperator(t, rest); }
  }

  // A token counts once, and an operator of two characters twice.
  function Counted(toks: seq<Token>): nat {
    if toks == [] then 0 else (if toks[0].Word? then 1 else |Spell(toks[0])|) + Counted(toks[1..])
  }

  lemma OperatorIsSymbol(s: string)
    requires Operator(s).Some?
    ensures s != [] && Symbol(s[0])
  {
  }

  // For words without '&' and parentheses the count is exact: the token array gets an end token
  // exactly when some operator has two characters.
  lemma {:induction false} CountSpaced(toks: seq<Token>, gaps: seq<string>)
    requires |gaps| == |toks| + 1 && WellSpaced(toks, gaps)
    requires forall i :: 0 <= i < |toks| && toks[i].Word? ==> NoSymbols(toks[i].text)
    ensures Count(Spaced(toks, gaps), false) == Counted(toks)
    decreases |toks|
  {
    if toks == [] {
      assert Blank(gaps[0]) && gaps[0] + [] == gaps[0];
      CountGap(gaps[0], []);
    } else {
      var t, rest := toks[0], Spaced(toks[1..], gaps[1..]);
      WellSpacedTail(toks, gaps);
      SpacedIs(toks, gaps);
      assert forall i :: 0 <= i < |toks| - 1 ==> toks[1..][i] == toks[i + 1];
      TextParts(t, toks[1..], gaps[1..]);
      if t.Word? && rest != [] && !White(rest[0]) { OperatorIsSymbol(rest); }
      assert Counted(toks) == (if t.Word? then 1 else |Spell(t)|) + Counted(toks[1..]);
      assert t.Word? ==> rest == [] || White(rest[0]) || Symbol(rest[0]);
      hide *;
      CountSpaced(toks[1..], gaps[1..]);
      CountGap(gaps[0], Spell(t) + rest);
      CountFirst(t, rest);
    }
  }
}
