// The shell's tokenizer and parser (user/sh.c) as functions, and the round trip through text.
module Shell {
  import opened Common

  datatype Kind = In | Out | Append

  datatype Token = End | Word(text: string) | Bar | And | Or | Semi | Redirect(kind: Kind) | Backtick

  datatype Node =
    | Command(argv: seq<string>)
    | Redir(kind: Kind, left: Node, filename: string)
    | Pipe(left: Node, right: Node)
    | AndThen(left: Node, right: Node)
    | OrElse(left: Node, right: Node)
    | Seq(left: Node, right: Node)

  predicate Symbol(c: char) {
    c == '<' || c == '|' || c == '>' || c == '&' || c == ';' || c == '(' || c == ')' || c == '`'
  }

  // What stands before a '#'.
  function Uncomment(s: string): (t: string)
    ensures |t| <= |s|
  {
    if s == [] || s[0] == '#' then [] else [s[0]] + Uncomment(s[1..])
  }

  // The first pass of tokenize: how many tokens it counts from s on, inside a word or not.
  function Count(s: string, inWord: bool): nat {
    if s == [] then (if inWord then 1 else 0)
    else if White(s[0]) then (if inWord then 1 else 0) + Count(s[1..], false)
    else if Symbol(s[0]) then (if inWord then 2 else 1) + Count(s[1..], false)
    else Count(s[1..], true)
  }

  function Flush(w: string): seq<Token> { if w == [] then [] else [Word(w)] }

  // The operator at the start of s, and its length.
  function Operator(s: string): Option<(Token, nat)> {
    if s == [] then None
    else
      var twice := |s| > 1 && s[1] == s[0];
      if s[0] == '|' then (if twice then Some((Or, 2)) else Some((Bar, 1)))
      else if s[0] == '&' && twice then Some((And, 2))
      else if s[0] == ';' then Some((Semi, 1))
      else if s[0] == '<' then Some((Redirect(In), 1))
      else if s[0] == '>' then (if twice then Some((Redirect(Append), 2)) else Some((Redirect(Out), 1)))
      else if s[0] == '`' then Some((Backtick, 1))
      else None
  }

  // The second pass: w is the word that s continues.
  function Lex(s: string, w: string): seq<Token>
    decreases |s|
  {
    if s == [] then Flush(w)
    else if White(s[0]) then Flush(w) + Lex(s[1..], [])
    else
      match Operator(s)
      case Some((op, n)) => Flush(w) + [op] + (if n <= |s| then Lex(s[n..], []) else [])
      case None => Lex(s[1..], w + [s[0]])
  }

  // The token array when tokenize returns: an end token follows where the first pass counted more.
  function Tokens(s: string): seq<Token> {
    var t := Uncomment(s);
    var toks := Lex(t, []);
    if |toks| < Count(t, false) then toks + [End] else toks
  }

  // The second pass never writes more tokens than the first counted.
  lemma {:induction false} LexWithinCount(s: string, w: string)
    ensures |Lex(s, w)| <= Count(s, w != [])
    decreases |s|
  {
    if s != [] {
      if White(s[0]) {
        LexWithinCount(s[1..], []);
      } else {
        match Operator(s)
        case Some((op, n)) =>
          LexWithinCount(s[n..], []);
          if n == 2 { assert s[1..][1..] == s[2..] && Symbol(s[1]); }
        case None =>
          LexWithinCount(s[1..], w + [s[0]]);
          if Symbol(s[0]) { CountWord(s[1..]); }
      }
    }
  }

  // Being inside a word adds at most one token.
  lemma CountWord(s: string)
    ensures Count(s, false) <= Count(s, true) <= Count(s, false) + 1
  {}

  // The parser on the tokens still to come.

  predicate Stops(toks: seq<Token>) {
    toks == [] || toks[0].End? || toks[0].Bar? || toks[0].And? || toks[0].Or? || toks[0].Semi?
  }

  function PSimple(toks: seq<Token>, argv: seq<string>): (r: (Option<Node>, seq<Token>))
    ensures |r.1| <= |toks|
    decreases |toks|
  {
    if Stops(toks) then (if argv == [] then None else Some(Command(argv)), toks)
    else if toks[0].Redirect? then
      var rest := toks[1..];
      if rest == [] then (None, rest)
      else if !rest[0].Word? then (None, rest[1..])
      else if argv == [] then (None, rest[1..])
      else (Some(Redir(toks[0].kind, Command(argv), rest[0].text)), rest[1..])
    else if toks[0].Word? then PSimple(toks[1..], argv + [toks[0].text])
    else (None, toks)
  }

  function PipeRest(left: Node, toks: seq<Token>): (r: (Node, seq<Token>))
    ensures |r.1| <= |toks|
    decreases |toks|
  {
    if toks == [] || !toks[0].Bar? then (left, toks)
    else
      var (right, rest) := PSimple(toks[1..], []);
      if right.None? then (left, rest) else PipeRest(Pipe(left, right.value), rest)
  }

  function PPipe(toks: seq<Token>): (r: (Option<Node>, seq<Token>))
    ensures |r.1| <= |toks|
  {
    var (left, rest) := PSimple(toks, []);
    if left.None? then (None, rest)
    else
      var (n, rest1) := PipeRest(left.value, rest);
      (Some(n), rest1)
  }

  function AndOrRest(left: Node, toks: seq<Token>): (r: (Node, seq<Token>))
    ensures |r.1| <= |toks|
    decreases |toks|
  {
    if toks == [] || !(toks[0].And? || toks[0].Or?) then (left, toks)
    else
      var (right, rest) := PPipe(toks[1..]);
      if right.None? then (left, rest)
      else AndOrRest(if toks[0].And? then AndThen(left, right.value) else OrElse(left, right.value), rest)
  }

  function PAndOr(toks: seq<Token>): (r: (Option<Node>, seq<Token>))
    ensures |r.1| <= |toks|
  {
    var (left, rest) := PPipe(toks);
    if left.None? then (None, rest)
    else
      var (n, rest1) := AndOrRest(left.value, rest);
      (Some(n), rest1)
  }

  function SeqRest(left: Node, toks: seq<Token>): (r: (Node, seq<Token>))
    ensures |r.1| <= |toks|
    decreases |toks|
  {
    if toks == [] || !toks[0].Semi? then (left, toks)
    else
      var (right, rest) := PAndOr(toks[1..]);
      if right.None? then (left, rest) else SeqRest(Seq(left, right.value), rest)
  }

  function PCommand(toks: seq<Token>): (r: (Option<Node>, seq<Token>))
    ensures |r.1| <= |toks|
  {
    var (left, rest) := PAndOr(toks);
    if left.None? then (None, rest)
    else
      var (n, rest1) := SeqRest(left.value, rest);
      (Some(n), rest1)
  }

  // Trees the shell can be told to run: sequences of AND/OR lists of pipelines of commands, each
  // level associated to the left, a command with at most one redirection behind it.

  // A word: no blanks, operators or comment, and no "&&".
  predicate IsWord(w: string) {
    && w != []
    && (forall i :: 0 <= i < |w| ==> WordChar(w[i]))
    && (forall i :: 0 < i < |w| ==> !(w[i - 1] == '&' && w[i] == '&'))
  }

  predicate WordChar(c: char) {
    !White(c) && c != '|' && c != ';' && c != '<' && c != '>' && c != '`' && c != '#' && c != '\0'
  }

  predicate IsCommand(n: Node) { n.Command? && n.argv != [] && forall i :: 0 <= i < |n.argv| ==> IsWord(n.argv[i]) }

  predicate IsSimple(n: Node) { IsCommand(n) || (n.Redir? && IsCommand(n.left) && IsWord(n.filename)) }

  predicate IsPipeline(n: Node) { IsSimple(n) || (n.Pipe? && IsPipeline(n.left) && IsSimple(n.right)) }

  predicate IsAndOr(n: Node) {
    IsPipeline(n) || ((n.AndThen? || n.OrElse?) && IsAndOr(n.left) && IsPipeline(n.right))
  }

  predicate IsSeq(n: Node) { IsAndOr(n) || (n.Seq? && IsSeq(n.left) && IsAndOr(n.right)) }

  function Words(argv: seq<string>): seq<Token> {
    if argv == [] then [] else [Word(argv[0])] + Words(argv[1..])
  }

  function Print(n: Node): seq<Token> {
    match n
    case Command(argv) => Words(argv)
    case Redir(kind, left, filename) => Print(left) + [Redirect(kind), Word(filename)]
    case Pipe(left, right) => Print(left) + [Bar] + Print(right)
    case AndThen(left, right) => Print(left) + [And] + Print(right)
    case OrElse(left, right) => Print(left) + [Or] + Print(right)
    case Seq(left, right) => Print(left) + [Semi] + Print(right)
  }

  function Spell(t: Token): string {
    match t
    case End => ""
    case Word(w) => w
    case Bar => "|"
    case And => "&&"
    case Or => "||"
    case Semi => ";"
    case Redirect(k) => (match k case In => "<" case Out => ">" case Append => ">>")
    case Backtick => "`"
  }

  function Show(toks: seq<Token>): string {
    if toks == [] then [] else Spell(toks[0]) + " " + Show(toks[1..])
  }

  // Parsing undoes printing.

  lemma WordParses(toks: seq<Token>, word: string, done: seq<string>)
    requires toks != [] && toks[0] == Word(word)
    ensures PSimple(toks, done) == PSimple(toks[1..], done + [word])
  {
  }

  lemma FirstOff<T>(x: T, a: seq<T>, b: seq<T>)
    ensures [x] + a + b != [] && ([x] + a + b)[0] == x && ([x] + a + b)[1..] == a + b
  {
  }

  lemma WordsSplit(argv: seq<string>, rest: seq<Token>)
    requires argv != []
    ensures Words(argv) + rest != [] && (Words(argv) + rest)[0] == Word(argv[0])
    ensures (Words(argv) + rest)[1..] == Words(argv[1..]) + rest
  {
    assert Words(argv) == [Word(argv[0])] + Words(argv[1..]);
    hide Words;
    FirstOff(Word(argv[0]), Words(argv[1..]), rest);
  }

  lemma {:induction false} WordsParse(argv: seq<string>, done: seq<string>, rest: seq<Token>)
    ensures PSimple(Words(argv) + rest, done) == PSimple(rest, done + argv)
    decreases |argv|
  {
    if argv == [] {
      assert Words(argv) + rest == rest && done + argv == done;
    } else {
      hide PSimple;
      WordsSplit(argv, rest);
      WordParses(Words(argv) + rest, argv[0], done);
      hide Words;
      WordsParse(argv[1..], done + [argv[0]], rest);
      assert done + [argv[0]] + argv[1..] == done + argv;
    }
  }

  predicate EndsRedirected(n: Node) {
    n.Redir? || (!n.Command? && EndsRedirected(n.right))
  }

  // Where n ends in rest: at an operator or the end, or anywhere behind a redirection.
  predicate Ends(n: Node, rest: seq<Token>) { Stops(rest) || EndsRedirected(n) }

  lemma SimpleParses(n: Node, rest: seq<Token>)
    requires IsSimple(n) && Ends(n, rest)
    ensures PSimple(Print(n) + rest, []) == (Some(n), rest)
  {
    if n.Command? {
      WordsParse(n.argv, [], rest);
      assert [] + n.argv == n.argv;
    } else {
      var tail := [Redirect(n.kind), Word(n.filename)] + rest;
      assert Print(n) + rest == Words(n.left.argv) + tail;
      WordsParse(n.left.argv, [], tail);
      assert [] + n.left.argv == n.left.argv;
      assert tail[1..] == [Word(n.filename)] + rest && tail[1..][1..] == rest;
    }
  }

  lemma Regroup(a: seq<Token>, t: Token, b: seq<Token>, rest: seq<Token>)
    ensures a + [t] + b + rest == a + ([t] + (b + rest))
    ensures ([t] + (b + rest))[1..] == b + rest
  {}

  lemma {:induction false} PipeParses(n: Node, rest: seq<Token>)
    requires IsPipeline(n) && Ends(n, rest)
    ensures PPipe(Print(n) + rest) == (Some(PipeRest(n, rest).0), PipeRest(n, rest).1)
    decreases n
  {
    if IsSimple(n) {
      SimpleParses(n, rest);
    } else {
      var tail := [Bar] + (Print(n.right) + rest);
      Regroup(Print(n.left), Bar, Print(n.right), rest);
      PipeParses(n.left, tail);
      SimpleParses(n.right, rest);
      assert tail[0] == Bar;
    }
  }

  lemma {:induction false} AndOrParses(n: Node, rest: seq<Token>)
    requires IsAndOr(n) && Ends(n, rest) && (rest == [] || !rest[0].Bar?)
    ensures PAndOr(Print(n) + rest) == (Some(AndOrRest(n, rest).0), AndOrRest(n, rest).1)
    decreases n
  {
    if IsPipeline(n) {
      PipeParses(n, rest);
    } else {
      var t := if n.AndThen? then And else Or;
      var tail := [t] + (Print(n.right) + rest);
      Regroup(Print(n.left), t, Print(n.right), rest);
      AndOrParses(n.left, tail);
      PipeParses(n.right, rest);
      assert tail[0] == t;
    }
  }

  lemma {:induction false} SeqParses(n: Node, rest: seq<Token>)
    requires IsSeq(n) && Ends(n, rest) && (rest == [] || !(rest[0].Bar? || rest[0].And? || rest[0].Or?))
    ensures PCommand(Print(n) + rest) == (Some(SeqRest(n, rest).0), SeqRest(n, rest).1)
    decreases n
  {
    if IsAndOr(n) {
      AndOrParses(n, rest);
    } else {
      var tail := [Semi] + (Print(n.right) + rest);
      Regroup(Print(n.left), Semi, Print(n.right), rest);
      SeqParses(n.left, tail);
      AndOrParses(n.right, rest);
      assert tail[0] == Semi;
    }
  }

  // Tokenizing undoes spelling.

  predicate Legit(t: Token) { !t.End? && !t.Backtick? && (t.Word? ==> IsWord(t.text)) }

  predicate WordTail(u: string) {
    && (forall i :: 0 <= i < |u| ==> WordChar(u[i]))
    && (forall i :: 0 < i < |u| ==> !(u[i - 1] == '&' && u[i] == '&'))
  }

  lemma {:induction false} LexWord(u: string, w: string, s: string)
    requires WordTail(u) && w + u != []
    ensures Lex(u + " " + s, w) == [Word(w + u)] + Lex(s, [])
    decreases |u|
  {
    var t := u + " " + s;
    if u == [] {
      assert t == " " + s && t[1..] == s && w + u == w;
    } else {
      assert t[0] == u[0] && t[1..] == u[1..] + " " + s;
      assert Operator(t).None?;
      LexWord(u[1..], w + [u[0]], s);
      assert w + [u[0]] + u[1..] == w + u;
    }
  }

  lemma LexWhite(s: string)
    ensures Lex(" " + s, []) == Lex(s, [])
  {
    assert (" " + s)[1..] == s;
    assert Flush([]) + Lex(s, []) == Lex(s, []);
  }

  // An operator followed by a blank is taken whole, and no longer.
  lemma OperatorSpelled(t: Token, s: string)
    requires Legit(t) && !t.Word?
    ensures var text, n := Spell(t) + (" " + s), |Spell(t)|;
      n > 0 && !White(text[0]) && Operator(text) == Some((t, n)) && text[n..] == " " + s
  {
    var text := Spell(t) + (" " + s);
    if |Spell(t)| == 1 { assert text[1] == ' '; }
  }

  lemma LexOperator(text: string, t: Token, n: nat)
    requires text != [] && !White(text[0]) && Operator(text) == Some((t, n)) && n <= |text|
    ensures Lex(text, []) == [t] + Lex(text[n..], [])
  {
    assert Flush([]) + [t] == [t];
  }

  lemma LexSpelled(t: Token, s: string)
    requires Legit(t)
    ensures Lex(Spell(t) + " " + s, []) == [t] + Lex(s, [])
  {
    if t.Word? {
      LexWord(t.text, [], s);
      assert [] + t.text == t.text;
    } else {
      hide Lex, Operator, White;
      var text := Spell(t) + (" " + s);
      assert Spell(t) + " " + s == text;
      OperatorSpelled(t, s);
      LexOperator(text, t, |Spell(t)|);
      LexWhite(s);
    }
  }

  lemma {:induction false} LexShown(toks: seq<Token>)
    requires forall i :: 0 <= i < |toks| ==> Legit(toks[i])
    ensures Lex(Show(toks), []) == toks && '#' !in Show(toks)
  {
    assert Lex([], []) == [];
    if toks != [] {
      hide Lex;
      LexSpelled(toks[0], Show(toks[1..]));
      LexShown(toks[1..]);
    }
  }

  lemma {:induction false} NoComment(s: string)
    requires '#' !in s
    ensures Uncomment(s) == s
  {
    if s != [] { NoComment(s[1..]); }
  }

  lemma {:induction false} PrintsLegit(n: Node)
    requires IsSeq(n)
    ensures forall i :: 0 <= i < |Print(n)| ==> Legit(Print(n)[i])
    decreases n
  {
    match n
    case Command(argv) => WordsLegit(argv);
    case Redir(_, left, _) => PrintsLegit(left);
    case Pipe(left, right) => PrintsLegit(left); PrintsLegit(right);
    case AndThen(left, right) => PrintsLegit(left); PrintsLegit(right);
    case OrElse(left, right) => PrintsLegit(left); PrintsLegit(right);
    case Seq(left, right) => PrintsLegit(left); PrintsLegit(right);
  }

  lemma {:induction false} WordsLegit(argv: seq<string>)
    requires forall i :: 0 <= i < |argv| ==> IsWord(argv[i])
    ensures forall i :: 0 <= i < |Words(argv)| ==> Legit(Words(argv)[i])
  {
    if argv != [] { WordsLegit(argv[1..]); }
  }

  // Every tree, written out as text, tokenized and parsed, is that tree again, and nothing but the
  // end token is left.
  lemma RoundTrip(n: Node)
    requires IsSeq(n)
    ensures var (r, rest) := PCommand(Tokens(Show(Print(n))));
      r == Some(n) && (rest == [] || rest == [End])
  {
    PrintsLegit(n);
    LexShown(Print(n));
    NoComment(Show(Print(n)));
    SeqParses(n, []);
    SeqParses(n, [End]);
    assert Print(n) + [] == Print(n);
  }
}
