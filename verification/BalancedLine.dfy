/** The one-line root values the notify reader steps over: a scanner with a bracket stack, and what it accepts. */
module BalancedLine {
  import opened Options
  import opened CodeUnits

  datatype Kind = Square | Curly
  datatype Bracket = Open(kind: Kind) | Close(kind: Kind)

  function AsBracket(u: Unit): Option<Bracket> {
    if u == LEFT_SQUARE then Some(Open(Square)) else if u == LEFT_CURLY then Some(Open(Curly))
    else if u == RIGHT_SQUARE then Some(Close(Square)) else if u == RIGHT_CURLY then Some(Close(Curly)) else None
  }

  predicate Quoting(u: Unit) {
    u == QUOTE || u == APOSTROPHE
  }

  predicate Triple(t: Source) {
    |t| >= 3 && t[0] == t[1] == t[2]
  }

  // ---- The scanner ----

  /** One step per unit: an open delimiter or none, a pending escape, and the stack of open brackets, innermost first. */
  predicate Scan(t: Source, delimiter: Option<Unit>, escaped: bool, stack: seq<Kind>) {
    if t == [] then delimiter.None? && stack == []
    else
      var c, rest := t[0], t[1..];
      if delimiter.Some? then
        if escaped then Scan(rest, delimiter, false, stack)
        else if c == BACKSLASH && delimiter.value == QUOTE then Scan(rest, delimiter, true, stack)
        else if c == delimiter.value then Scan(rest, None, false, stack)
        else Scan(rest, delimiter, false, stack)
      else if c == HASH then stack == []
      else if Quoting(c) then !Triple(t) && Scan(rest, Some(c), false, stack)
      else match AsBracket(c)
        case None => Scan(rest, None, false, stack)
        case Some(Open(k)) => Scan(rest, None, false, [k] + stack)
        case Some(Close(k)) => stack != [] && stack[0] == k && Scan(rest, None, false, stack[1..])
  }

  /** One step outside strings, on an unmarked unit. */
  lemma ScanOther(c: Unit, rest: Source, stack: seq<Kind>)
    requires c != HASH && !Quoting(c) && AsBracket(c).None?
    ensures Scan([c] + rest, None, false, stack) <==> Scan(rest, None, false, stack)
  {
    assert ([c] + rest)[1..] == rest;
  }

  lemma ScanBracket(c: Unit, rest: Source, stack: seq<Kind>)
    requires AsBracket(c).Some?
    ensures AsBracket(c).value.Open? ==>
              (Scan([c] + rest, None, false, stack) <==> Scan(rest, None, false, [AsBracket(c).value.kind] + stack))
    ensures AsBracket(c).value.Close? ==>
              (Scan([c] + rest, None, false, stack) <==>
               stack != [] && stack[0] == AsBracket(c).value.kind && Scan(rest, None, false, stack[1..]))
  {
    assert ([c] + rest)[1..] == rest;
  }

  lemma ScanQuote(c: Unit, rest: Source, stack: seq<Kind>)
    requires Quoting(c)
    ensures Scan([c] + rest, None, false, stack) <==> !Triple([c] + rest) && Scan(rest, Some(c), false, stack)
  {
    assert ([c] + rest)[1..] == rest;
  }

  method Balanced(line: Source) returns (ok: bool)
    ensures ok <==> Scan(line, None, false, [])
  {
    var delimiter: Option<Unit>, escaped, stack := None, false, [];
    var k := 0;
    while k < |line|
      invariant k <= |line| && (escaped ==> delimiter.Some?)
      invariant Scan(line, None, false, []) <==> Scan(line[k..], delimiter, escaped, stack)
    {
      ghost var left := line[k..];
      assert left[0] == line[k] && left[1..] == line[k + 1..];
      assert left == [line[k]] + line[k + 1..];
      var c := line[k];
      if delimiter.Some? {
        if escaped { escaped := false; }
        else if c == BACKSLASH && delimiter.value == QUOTE { escaped := true; }
        else if c == delimiter.value { delimiter := None; }
      } else if c == HASH {
        break;
      } else if Quoting(c) {
        if Triple(line[k..]) { return false; }
        ScanQuote(c, line[k + 1..], stack);
        delimiter := Some(c);
      } else {
        match AsBracket(c)
        case None =>
          ScanOther(c, line[k + 1..], stack);
        case Some(Open(kind)) =>
          ScanBracket(c, line[k + 1..], stack);
          stack := [kind] + stack;
        case Some(Close(kind)) =>
          ScanBracket(c, line[k + 1..], stack);
          if stack == [] || stack[0] != kind { return false; }
          stack := stack[1..];
      }
      k := k + 1;
    }
    return delimiter.None? && stack == [];
  }

  // ---- Lexical structure ----

  /** A line is a list of tokens and an optional comment. */
  datatype Token = Other(u: Unit) | Bracketed(b: Bracket) | Quoted(delimiter: Unit, body: Source)

  function BracketUnit(b: Bracket): Unit {
    match b
    case Open(Square) => LEFT_SQUARE
    case Open(Curly) => LEFT_CURLY
    case Close(Square) => RIGHT_SQUARE
    case Close(Curly) => RIGHT_CURLY
  }

  /** The inside of a string: no delimiter, except escaped in a basic string; every escape is complete. */
  predicate Body(delimiter: Unit, body: Source) {
    body == []
    || (delimiter == QUOTE && body[0] == BACKSLASH && |body| >= 2 && Body(delimiter, body[2..]))
    || (!(delimiter == QUOTE && body[0] == BACKSLASH) && body[0] != delimiter && Body(delimiter, body[1..]))
  }

  predicate WellFormed(token: Token) {
    match token
    case Other(u) => u != HASH && !Quoting(u) && AsBracket(u).None?
    case Bracketed(_) => true
    case Quoted(d, body) => Quoting(d) && Body(d, body)
  }

  function TokenText(token: Token): Source {
    match token
    case Other(u) => [u]
    case Bracketed(b) => [BracketUnit(b)]
    case Quoted(d, body) => [d] + body + [d]
  }

  function TokensText(tokens: seq<Token>): Source {
    if tokens == [] then [] else TokenText(tokens[0]) + TokensText(tokens[1..])
  }

  /** No empty string is followed at once by a string of the same delimiter: that would open a multi-line string. */
  ghost predicate Lexed(tokens: seq<Token>) {
    (forall i | 0 <= i < |tokens| :: WellFormed(tokens[i]))
    && forall i | 0 <= i < |tokens| - 1 ::
         tokens[i].Quoted? && tokens[i].body == [] ==> !(tokens[i + 1].Quoted? && tokens[i + 1].delimiter == tokens[i].delimiter)
  }

  ghost predicate CommentOrNothing(t: Source) {
    t == [] || t[0] == HASH
  }

  function Word(tokens: seq<Token>): seq<Bracket> {
    if tokens == [] then [] else (if tokens[0].Bracketed? then [tokens[0].b] else []) + Word(tokens[1..])
  }

  // ---- Bracket structure ----

  datatype Forest = Nil | Node(kind: Kind, inner: Forest, rest: Forest)

  function Spell(f: Forest): seq<Bracket> {
    match f
    case Nil => []
    case Node(k, inner, rest) => [Open(k)] + Spell(inner) + [Close(k)] + Spell(rest)
  }

  /** The Dyck words over two kinds of brackets. */
  ghost predicate Dyck(w: seq<Bracket>) {
    exists f :: Spell(f) == w
  }

  predicate Closes(w: seq<Bracket>, stack: seq<Kind>) {
    if w == [] then stack == []
    else match w[0]
      case Open(k) => Closes(w[1..], [k] + stack)
      case Close(k) => stack != [] && stack[0] == k && Closes(w[1..], stack[1..])
  }

  lemma {:induction false} ForestCloses(f: Forest, w: seq<Bracket>, stack: seq<Kind>)
    ensures Closes(Spell(f) + w, stack) <==> Closes(w, stack)
  {
    match f
    case Nil =>
      assert [] + w == w;
    case Node(k, inner, rest) =>
      var after := [Close(k)] + Spell(rest) + w;
      assert (Spell(f) + w)[0] == Open(k);
      assert (Spell(f) + w)[1..] == Spell(inner) + after;
      ForestCloses(inner, after, [k] + stack);
      assert after[1..] == Spell(rest) + w && ([k] + stack)[1..] == stack;
      ForestCloses(rest, w, stack);
  }

  /** A word that closes a stack: forests with the stack's closing brackets between them. */
  function Between(forests: seq<Forest>, stack: seq<Kind>): seq<Bracket>
    requires |forests| == |stack| + 1
  {
    if stack == [] then Spell(forests[0])
    else Spell(forests[0]) + [Close(stack[0])] + Between(forests[1..], stack[1..])
  }

  /** An opening bracket merges the two forests around its match into one. */
  lemma BetweenOpen(k: Kind, forests: seq<Forest>, stack: seq<Kind>)
    requires |forests| == |stack| + 2
    ensures Between([Node(k, forests[0], forests[1])] + forests[2..], stack) == [Open(k)] + Between(forests, [k] + stack)
  {
    var merged := [Node(k, forests[0], forests[1])] + forests[2..];
    var inner, outer := Spell(forests[0]), Spell(forests[1]);
    assert ([k] + stack)[1..] == stack && Spell(merged[0]) == [Open(k)] + inner + [Close(k)] + outer;
    if stack != [] {
      assert merged[1..] == forests[1..][1..];
      var rest := Between(merged[1..], stack[1..]);
      Regrouped([Open(k)], inner, [Close(k)], outer, [Close(stack[0])] + rest);
      assert outer + [Close(stack[0])] + rest == outer + ([Close(stack[0])] + rest);
    } else {
      Regrouped([Open(k)], inner, [Close(k)], outer, []);
    }
  }

  lemma Regrouped<T>(a: seq<T>, b: seq<T>, c: seq<T>, d: seq<T>, e: seq<T>)
    ensures a + b + c + d + e == a + (b + c + (d + e))
    ensures a + b + c + d + [] == a + b + c + d && d + [] == d
  {
  }

  lemma BetweenClose(forests: seq<Forest>, stack: seq<Kind>)
    requires |forests| == |stack| && stack != []
    ensures Between([Nil] + forests, stack) == [Close(stack[0])] + Between(forests, stack[1..])
  {
    assert ([Nil] + forests)[1..] == forests;
    assert Spell(Nil) + [Close(stack[0])] == [Close(stack[0])];
  }

  lemma {:induction false} ClosingWordsAreForests(w: seq<Bracket>, stack: seq<Kind>) returns (forests: seq<Forest>)
    requires Closes(w, stack)
    ensures |forests| == |stack| + 1 && Between(forests, stack) == w
    decreases |w|
  {
    if w == [] { return [Nil]; }
    match w[0]
    case Open(k) =>
      var inner := ClosingWordsAreForests(w[1..], [k] + stack);
      BetweenOpen(k, inner, stack);
      forests := [Node(k, inner[0], inner[1])] + inner[2..];
    case Close(k) =>
      var rest := ClosingWordsAreForests(w[1..], stack[1..]);
      BetweenClose(rest, stack);
      forests := [Nil] + rest;
  }

  lemma ClosesExactlyDyckWords(w: seq<Bracket>)
    ensures Closes(w, []) <==> Dyck(w)
  {
    if Closes(w, []) {
      var forests := ClosingWordsAreForests(w, []);
      assert Spell(forests[0]) == w;
    }
    if Dyck(w) {
      var f :| Spell(f) == w;
      ForestCloses(f, [], []);
      assert w + [] == w;
    }
  }

  // ---- What the scanner accepts ----

  /** Inside a string, the scanner runs over its body to the closing delimiter. */
  lemma {:induction false} ScanOverBody(d: Unit, body: Source, rest: Source, stack: seq<Kind>)
    requires Quoting(d) && Body(d, body)
    ensures Scan(body + [d] + rest, Some(d), false, stack) <==> Scan(rest, None, false, stack)
    decreases |body|
  {
    var t := body + [d] + rest;
    if body == [] {
      assert t[1..] == rest;
    } else if d == QUOTE && body[0] == BACKSLASH {
      ScanOverBody(d, body[2..], rest, stack);
      assert t[1..][1..] == body[2..] + [d] + rest;
    } else {
      ScanOverBody(d, body[1..], rest, stack);
      assert t[1..] == body[1..] + [d] + rest;
    }
  }

  /** An accepted scan that starts inside a string finds its end. */
  lemma {:induction false} BodyOfScan(d: Unit, t: Source, stack: seq<Kind>) returns (body: Source, rest: Source)
    requires Quoting(d) && Scan(t, Some(d), false, stack)
    ensures Body(d, body) && t == body + [d] + rest
    decreases |t|
  {
    if d == QUOTE && t[0] == BACKSLASH {
      var b;
      b, rest := BodyOfScan(d, t[2..], stack);
      body := t[..2] + b;
      assert body[2..] == b;
    } else if t[0] == d {
      body, rest := [], t[1..];
    } else {
      var b;
      b, rest := BodyOfScan(d, t[1..], stack);
      body := [t[0]] + b;
      assert body[1..] == b;
    }
  }

  lemma WordOfTokens(tokens: seq<Token>)
    requires tokens != []
    ensures Word(tokens) == if tokens[0].Bracketed? then [tokens[0].b] + Word(tokens[1..]) else Word(tokens[1..])
  {
  }

  /** One token's worth of scanning, outside strings. */
  lemma TokenScans(token: Token, rest: seq<Token>, comment: Source, stack: seq<Kind>)
    requires Lexed([token] + rest) && CommentOrNothing(comment)
    ensures var after := TokensText(rest) + comment;
            Scan(TokenText(token) + after, None, false, stack) <==>
            if token.Bracketed? && token.b.Open? then Scan(after, None, false, [token.b.kind] + stack)
            else if token.Bracketed? then stack != [] && stack[0] == token.b.kind && Scan(after, None, false, stack[1..])
            else Scan(after, None, false, stack)
  {
    var after := TokensText(rest) + comment;
    assert ([token] + rest)[0] == token;
    assert WellFormed(token);
    match token
    case Other(u) => ScanOther(u, after, stack);
    case Bracketed(b) =>
      assert AsBracket(BracketUnit(b)) == Some(b);
      ScanBracket(BracketUnit(b), after, stack);
    case Quoted(d, body) =>
      NotTriple(token, rest, comment);
      StringScans(d, body, after, stack);
  }

  lemma StringScans(d: Unit, body: Source, after: Source, stack: seq<Kind>)
    requires Quoting(d) && Body(d, body) && !Triple(TokenText(Quoted(d, body)) + after)
    ensures Scan(TokenText(Quoted(d, body)) + after, None, false, stack) <==> Scan(after, None, false, stack)
  {
    assert TokenText(Quoted(d, body)) + after == [d] + (body + [d] + after);
    ScanQuote(d, body + [d] + after, stack);
    ScanOverBody(d, body, after, stack);
  }

  lemma {:induction false} TokensScan(tokens: seq<Token>, comment: Source, stack: seq<Kind>)
    requires Lexed(tokens) && CommentOrNothing(comment)
    ensures Scan(TokensText(tokens) + comment, None, false, stack) <==> Closes(Word(tokens), stack)
    decreases |tokens|
  {
    if tokens == [] {
      assert [] + comment == comment;
    } else {
      var token, rest := tokens[0], tokens[1..];
      assert [token] + rest == tokens;
      assert TokensText(tokens) + comment == TokenText(token) + (TokensText(rest) + comment);
      LexedTail(tokens);
      WordOfTokens(tokens);
      TokenScans(token, rest, comment, stack);
      if !token.Bracketed? {
        TokensScan(rest, comment, stack);
      } else {
        assert ([token.b] + Word(rest))[1..] == Word(rest);
        if token.b.Open? {
          TokensScan(rest, comment, [token.b.kind] + stack);
        } else if stack != [] {
          TokensScan(rest, comment, stack[1..]);
        }
      }
    }
  }

  lemma LexedTail(tokens: seq<Token>)
    requires Lexed(tokens) && tokens != []
    ensures Lexed(tokens[1..])
  {
    assert forall i | 0 <= i < |tokens| - 1 :: tokens[1..][i] == tokens[i + 1];
  }

  lemma NotTriple(token: Token, rest: seq<Token>, comment: Source)
    requires token.Quoted? && Lexed([token] + rest) && CommentOrNothing(comment)
    ensures !Triple(TokenText(token) + (TokensText(rest) + comment))
  {
    var tokens := [token] + rest;
    assert tokens[0] == token;
    assert WellFormed(token);
    if token.body == [] && rest != [] {
      assert tokens[1] == rest[0] && WellFormed(tokens[1]);
    }
  }

  lemma LexedCons(token: Token, tokens: seq<Token>)
    requires WellFormed(token) && Lexed(tokens)
    requires token.Quoted? && token.body == [] && tokens != [] ==> !(tokens[0].Quoted? && tokens[0].delimiter == token.delimiter)
    ensures Lexed([token] + tokens)
  {
    var all := [token] + tokens;
    forall i | 0 <= i < |all| - 1
      ensures all[i].Quoted? && all[i].body == [] ==> !(all[i + 1].Quoted? && all[i + 1].delimiter == all[i].delimiter)
    {
      if i > 0 {
        assert all[i] == tokens[i - 1] && all[i + 1] == tokens[i];
      }
    }
    assert forall i | 0 < i < |all| :: all[i] == tokens[i - 1];
  }

  lemma ConsToken(token: Token, tokens: seq<Token>, comment: Source, rest: Source)
    requires WellFormed(token) && Lexed(tokens) && rest == TokensText(tokens) + comment
    requires token.Quoted? && token.body == [] ==> rest == [] || rest[0] != token.delimiter
    ensures Lexed([token] + tokens) && TokenText(token) + rest == TokensText([token] + tokens) + comment
  {
    if tokens != [] && tokens[0].Quoted? {
      assert rest[0] == tokens[0].delimiter;
    }
    LexedCons(token, tokens);
    assert ([token] + tokens)[1..] == tokens;
    Assoc(TokenText(token), TokensText(tokens), comment);
  }

  lemma Assoc<T>(a: seq<T>, b: seq<T>, c: seq<T>)
    ensures a + (b + c) == a + b + c
  {
  }

  lemma {:induction false} ScanTokens(t: Source, stack: seq<Kind>) returns (tokens: seq<Token>, comment: Source)
    requires Scan(t, None, false, stack)
    ensures Lexed(tokens) && CommentOrNothing(comment) && t == TokensText(tokens) + comment
    decreases |t|
  {
    if t == [] || t[0] == HASH { return [], t; }
    var c, rest, token := t[0], t[1..], Other(t[0]);
    assert t == [c] + t[1..];
    var below := stack;
    if Quoting(c) {
      ScanQuote(c, t[1..], stack);
      var body, after := BodyOfScan(c, t[1..], stack);
      ScanOverBody(c, body, after, stack);
      rest, token := after, Quoted(c, body);
    } else if AsBracket(c).Some? {
      ScanBracket(c, t[1..], stack);
      token := Bracketed(AsBracket(c).value);
      below := if token.b.Open? then [token.b.kind] + stack else stack[1..];
    } else {
      ScanOther(c, t[1..], stack);
    }
    var more;
    more, comment := ScanTokens(rest, below);
    ConsToken(token, more, comment, rest);
    assert t == TokenText(token) + rest;
    tokens := [token] + more;
  }

  /** The scanner accepts exactly the lines whose strings close and whose brackets, outside strings and comments, form a
      Dyck word over the two kinds. */
  lemma BalancedLines(line: Source)
    ensures Scan(line, None, false, []) <==>
              exists tokens, comment :: Lexed(tokens) && CommentOrNothing(comment)
                                        && line == TokensText(tokens) + comment && Dyck(Word(tokens))
  {
    if Scan(line, None, false, []) {
      var tokens, comment := ScanTokens(line, []);
      TokensScan(tokens, comment, []);
      ClosesExactlyDyckWords(Word(tokens));
    }
    forall tokens, comment | Lexed(tokens) && CommentOrNothing(comment) && line == TokensText(tokens) + comment && Dyck(Word(tokens))
      ensures Scan(line, None, false, [])
    {
      TokensScan(tokens, comment, []);
      ClosesExactlyDyckWords(Word(tokens));
    }
  }
}
