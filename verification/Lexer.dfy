/** The lexer (compiler/src/lexer.rs): tokens as a function of the text, and the object that reads them. */
module Lexer {
  import opened Prelude
  import opened Ast

  datatype Kind =
    | Keyword | Identifier | IntLit | FloatLit | StrLit | CharLit | BoolLit
    | Operator(op: BinOp) | Bang
    | PlusEq | MinusEq | StarEq | SlashEq
    | Arrow | DoubleArrow | PipeTok | Question | AtSign | Dollar
    | Comma | Semicolon | Colon | DoubleColon | LParen | RParen | LBracket | RBracket | LBrace | RBrace | Dot | DoubleDot
    | Eof | Attribute

  /** What the parser looks at in a token; a keyword is told by its value. */
  datatype Lexeme = Lexeme(kind: Kind, value: string)

  datatype Token = Token(lexeme: Lexeme, line: nat, column: nat)

  // ----- characters -----

  predicate IsDigit(c: char) {
    '0' <= c <= '9'
  }

  predicate IsChinese(c: char) {
    var cp := c as int;
    0x4E00 <= cp <= 0x9FFF || 0x3400 <= cp <= 0x4DBF || 0x2_0000 <= cp <= 0x2_A6DF || 0xF900 <= cp <= 0xFAFF
  }

  predicate IdentStart(c: char) {
    'a' <= c <= 'z' || 'A' <= c <= 'Z' || c == '_' || IsChinese(c)
  }

  predicate IdentContinue(c: char) {
    IdentStart(c) || IsDigit(c)
  }

  predicate IsBlank(c: char) {
    c == ' ' || c == '\t' || c == '\r' || c == '\n'
  }

  const KEYWORDS := {"let", "fn", "return", "if", "else", "match", "for", "in", "while", "spawn", "async", "try", "catch",
                     "use", "trait", "assert", "channel", "mut", "ok", "error", "export", "pub", "impl", "struct", "enum",
                     "type", "const", "mod"}

  function WordKind(word: string): Kind {
    if word in KEYWORDS then Keyword
    else if word == "true" || word == "false" then BoolLit
    else Identifier
  }

  function TwoCharKind(a: char, b: char): Option<Kind> {
    if a == '-' && b == '>' then Some(Arrow)
    else if a == '=' && b == '>' then Some(DoubleArrow)
    else if (a == '|' && b == '>') || (a == '<' && b == '|') then Some(PipeTok)
    else if a == '=' && b == '=' then Some(Operator(EqEq))
    else if a == '!' && b == '=' then Some(Operator(NotEq))
    else if a == '<' && b == '=' then Some(Operator(Le))
    else if a == '>' && b == '=' then Some(Operator(Ge))
    else if a == '&' && b == '&' then Some(Operator(AndAnd))
    else if a == '|' && b == '|' then Some(Operator(OrOr))
    else if a == '.' && b == '.' then Some(DoubleDot)
    else if a == ':' && b == ':' then Some(DoubleColon)
    else if a == '+' && b == '=' then Some(PlusEq)
    else if a == '-' && b == '=' then Some(MinusEq)
    else if a == '*' && b == '=' then Some(StarEq)
    else if a == '/' && b == '=' then Some(SlashEq)
    else None
  }

  function OneCharKind(c: char): Option<Kind> {
    if c == '+' then Some(Operator(Plus))
    else if c == '-' then Some(Operator(Minus))
    else if c == '*' then Some(Operator(Star))
    else if c == '/' then Some(Operator(Slash))
    else if c == '%' then Some(Operator(Percent))
    else if c == '=' then Some(Operator(Assign))
    else if c == '<' then Some(Operator(Lt))
    else if c == '>' then Some(Operator(Gt))
    else if c == '!' then Some(Bang)
    else if c == '?' then Some(Question)
    else if c == '@' then Some(AtSign)
    else if c == '$' then Some(Dollar)
    else if c == ',' then Some(Comma)
    else if c == ';' then Some(Semicolon)
    else if c == ':' then Some(Colon)
    else if c == '(' then Some(LParen)
    else if c == ')' then Some(RParen)
    else if c == '[' then Some(LBracket)
    else if c == ']' then Some(RBracket)
    else if c == '{' then Some(LBrace)
    else if c == '}' then Some(RBrace)
    else if c == '.' then Some(Dot)
    else None
  }

  // ----- decimal numbers -----

  function DigitValue(c: char): nat
    requires IsDigit(c)
  {
    c as int - '0' as int
  }

  /** The value of a run of digits. */
  function Decimal(s: string): nat
    requires forall c :: c in s ==> IsDigit(c)
  {
    if s == [] then 0 else Decimal(s[..|s| - 1]) * 10 + DigitValue(s[|s| - 1])
  }

  // ----- where things end -----

  function PeekAt(cs: seq<char>, p: nat): char {
    if p < |cs| then cs[p] else '\0'
  }

  function LineCommentEnd(cs: seq<char>, p: nat): (e: nat)
    requires p <= |cs|
    ensures p <= e <= |cs|
    decreases |cs| - p
  {
    if p == |cs| || cs[p] == '\n' then p else LineCommentEnd(cs, p + 1)
  }

  function BlockCommentEnd(cs: seq<char>, p: nat): (e: nat)
    requires p <= |cs|
    ensures p <= e <= |cs|
    decreases |cs| - p
  {
    if p == |cs| then p
    else if cs[p] == '*' && p + 1 < |cs| && cs[p + 1] == '/' then p + 2
    else BlockCommentEnd(cs, p + 1)
  }

  /** Past blanks and comments. */
  function SkipEnd(cs: seq<char>, p: nat): (e: nat)
    requires p <= |cs|
    ensures p <= e <= |cs|
    decreases |cs| - p
  {
    if p == |cs| then p
    else if IsBlank(cs[p]) then SkipEnd(cs, p + 1)
    else if cs[p] == '/' && p + 1 < |cs| && cs[p + 1] == '/' then SkipEnd(cs, LineCommentEnd(cs, p + 2))
    else if cs[p] == '/' && p + 1 < |cs| && cs[p + 1] == '*' then SkipEnd(cs, BlockCommentEnd(cs, p + 2))
    else p
  }

  function IdentEnd(cs: seq<char>, p: nat): (e: nat)
    requires p <= |cs|
    ensures p <= e <= |cs|
    decreases |cs| - p
  {
    if p == |cs| || !IdentContinue(cs[p]) then p else IdentEnd(cs, p + 1)
  }

  /** Digits and at most one dot, which must not be the first of two. */
  function NumberEnd(cs: seq<char>, p: nat, dot: bool): (r: (nat, bool))
    requires p <= |cs|
    ensures p <= r.0 <= |cs|
    ensures !dot && !r.1 ==> forall i :: p <= i < r.0 ==> IsDigit(cs[i])
    ensures dot ==> r.1
    decreases |cs| - p
  {
    if p == |cs| then (p, dot)
    else if IsDigit(cs[p]) then NumberEnd(cs, p + 1, dot)
    else if cs[p] == '.' && !dot && !(p + 1 < |cs| && cs[p + 1] == '.') then NumberEnd(cs, p + 1, true)
    else (p, dot)
  }

  /** Text with a dot always reads as a float; digits alone as an integer if they fit i64, else as an identifier. */
  function NumberKind(text: string, dot: bool): Kind
    requires !dot ==> forall c :: c in text ==> IsDigit(c)
  {
    if dot then FloatLit else if Decimal(text) < TWO_63 then IntLit else Identifier
  }

  function Unescaped(c: char): char {
    if c == 'n' then '\n' else if c == 't' then '\t' else c
  }

  /** The rest of a string after its opening quote: its text and where it ends. */
  function StringFrom(cs: seq<char>, p: nat, quote: char): (r: Option<(string, nat)>)
    requires p <= |cs|
    ensures r.Some? ==> p < r.value.1 <= |cs|
    decreases |cs| - p
  {
    if p == |cs| then None
    else if cs[p] == '\\' then
      var esc := if p + 1 < |cs| then cs[p + 1] else '\\';
      var next := if p + 1 < |cs| then p + 2 else p + 1;
      var rest := StringFrom(cs, next, quote);
      if rest.None? then None else Some(([Unescaped(esc)] + rest.value.0, rest.value.1))
    else if cs[p] == quote then Some(("", p + 1))
    else
      var rest := StringFrom(cs, p + 1, quote);
      if rest.None? then None else Some(([cs[p]] + rest.value.0, rest.value.1))
  }

  function AttributeEnd(cs: seq<char>, p: nat): (e: nat)
    requires p <= |cs|
    ensures p <= e <= |cs|
    decreases |cs| - p
  {
    if p == |cs| then p else if cs[p] == ']' then p + 1 else AttributeEnd(cs, p + 1)
  }

  // ----- tokens -----

  /** The token that starts exactly at `p`, and where it ends; `None` is an unterminated string. */
  function LexemeAt(cs: seq<char>, p: nat): (r: Option<(Lexeme, nat)>)
    requires p <= |cs|
    ensures r.Some? ==> p <= r.value.1 <= |cs|
    ensures r.Some? ==> (r.value.0.kind == Eof <==> p == |cs|) && (p < |cs| ==> p < r.value.1)
  {
    if p == |cs| then Some((Lexeme(Eof, ""), p)) else
    var c := cs[p];
    if IdentStart(c) then
      var e := IdentEnd(cs, p + 1);
      Some((Lexeme(WordKind(cs[p..e]), cs[p..e]), e))
    else if IsDigit(c) then
      var (e, dot) := NumberEnd(cs, p, false);
      NumberAdvances(cs, p);
      Some((Lexeme(NumberKind(cs[p..e], dot), cs[p..e]), e))
    else if c == '"' || c == '\'' then
      var s := StringFrom(cs, p + 1, c);
      if s.None? then None else Some((Lexeme(if c == '"' then StrLit else CharLit, s.value.0), s.value.1))
    else if c == '#' && p + 1 < |cs| && cs[p + 1] == '[' then
      var e := AttributeEnd(cs, p + 2);
      Some((Lexeme(Attribute, cs[p..e]), e))
    else
      var two := TwoCharKind(c, PeekAt(cs, p + 1));
      if two.Some? then
        TwoCharsThere(cs, p);
        Some((Lexeme(two.value, cs[p..p + 2]), p + 2))
      else if OneCharKind(c).Some? then Some((Lexeme(OneCharKind(c).value, [c]), p + 1))
      else Some((Lexeme(Identifier, ['?', c, '?']), p + 1))
  }

  lemma NumberAdvances(cs: seq<char>, p: nat)
    requires p < |cs| && IsDigit(cs[p])
    ensures p < NumberEnd(cs, p, false).0
  {
  }

  lemma TwoCharsThere(cs: seq<char>, p: nat)
    requires p < |cs| && TwoCharKind(cs[p], PeekAt(cs, p + 1)).Some?
    ensures p + 2 <= |cs| && TwoCharKind(cs[p], PeekAt(cs, p + 1)).value != Eof
  {
  }

  /** All lexemes from `p` on. */
  function LexemesFrom(cs: seq<char>, p: nat): Option<seq<Lexeme>>
    requires p <= |cs|
    decreases |cs| - p
  {
    var l := LexemeAt(cs, SkipEnd(cs, p));
    if l.None? then None
    else if l.value.0.kind == Eof then Some([l.value.0])
    else
      var rest := LexemesFrom(cs, l.value.1);
      if rest.None? then None else Some([l.value.0] + rest.value)
  }

  /** A lexed text ends with Eof and has no other. */
  lemma {:induction false} EndsWithOneEof(cs: seq<char>, p: nat)
    requires p <= |cs| && LexemesFrom(cs, p).Some?
    ensures var ls := LexemesFrom(cs, p).value;
            ls != [] && forall i :: 0 <= i < |ls| ==> (ls[i].kind == Eof <==> i == |ls| - 1)
    decreases |cs| - p
  {
    hide LexemeAt, SkipEnd;
    var l := LexemeAt(cs, SkipEnd(cs, p));
    if l.value.0.kind != Eof {
      EndsWithOneEof(cs, l.value.1);
    }
  }

  // ----- positions -----

  /** Line and column of a position, counted from 1. */
  function LineAt(cs: seq<char>, p: nat): nat
    requires p <= |cs|
  {
    if p == 0 then 1 else LineAt(cs, p - 1) + if cs[p - 1] == '\n' then 1 else 0
  }

  function ColumnAt(cs: seq<char>, p: nat): nat
    requires p <= |cs|
  {
    if p == 0 || cs[p - 1] == '\n' then 1 else ColumnAt(cs, p - 1) + 1
  }

  /** The tokens from `p` on: each carries the position of its first character. */
  function TokensFrom(cs: seq<char>, p: nat): Option<seq<Token>>
    requires p <= |cs|
    decreases |cs| - p
  {
    var start := SkipEnd(cs, p);
    var l := LexemeAt(cs, start);
    if l.None? then None
    else
      var t := Token(l.value.0, LineAt(cs, start), ColumnAt(cs, start));
      if l.value.0.kind == Eof then Some([t])
      else
        var rest := TokensFrom(cs, l.value.1);
        if rest.None? then None else Some([t] + rest.value)
  }

  function Lexemes(ts: seq<Token>): seq<Lexeme> {
    if ts == [] then [] else [ts[0].lexeme] + Lexemes(ts[1..])
  }

  lemma {:induction false} TokensAreLexemes(cs: seq<char>, p: nat)
    requires p <= |cs|
    ensures TokensFrom(cs, p).Some? == LexemesFrom(cs, p).Some?
    ensures TokensFrom(cs, p).Some? ==> Lexemes(TokensFrom(cs, p).value) == LexemesFrom(cs, p).value
    decreases |cs| - p
  {
    hide LexemeAt, SkipEnd;
    var l := LexemeAt(cs, SkipEnd(cs, p));
    if l.Some? && l.value.0.kind != Eof {
      TokensAreLexemes(cs, l.value.1);
    }
  }

  class Scanner {
    const chars: seq<char>
    var pos: nat
    var line: nat
    var column: nat

    constructor (source: string)
      ensures chars == source && pos == 0 && Valid()
    {
      chars, pos, line, column := source, 0, 1, 1;
    }

    ghost predicate Valid()
      reads this
    {
      pos <= |chars| && line == LineAt(chars, pos) && column == ColumnAt(chars, pos)
    }

    function Peek(offset: nat): Option<char>
      reads this
    {
      if pos + offset < |chars| then Some(chars[pos + offset]) else None
    }

    method Advance()
      requires Valid()
      modifies this
      ensures Valid() && pos == if old(pos) < |chars| then old(pos) + 1 else old(pos)
    {
      if pos < |chars| {
        if chars[pos] == '\n' {
          line, column := line + 1, 1;
        } else {
          column := column + 1;
        }
        pos := pos + 1;
      }
    }

    method SkipWhitespace()
      requires Valid()
      modifies this
      ensures Valid() && pos == SkipEnd(chars, old(pos))
    {
      while true
        invariant Valid() && SkipEnd(chars, pos) == SkipEnd(chars, old(pos))
        decreases |chars| - pos
      {
        if pos == |chars| {
          return;
        }
        if IsBlank(chars[pos]) {
          Advance();
        } else if chars[pos] == '/' && Peek(1) == Some('/') {
          SkipLineComment();
        } else if chars[pos] == '/' && Peek(1) == Some('*') {
          SkipBlockComment();
        } else {
          return;
        }
      }
    }

    method SkipLineComment()
      requires Valid() && pos + 1 < |chars|
      modifies this
      ensures Valid() && pos == LineCommentEnd(chars, old(pos) + 2)
    {
      Advance();
      Advance();
      while pos < |chars| && chars[pos] != '\n'
        invariant Valid() && pos >= old(pos) + 2 && LineCommentEnd(chars, pos) == LineCommentEnd(chars, old(pos) + 2)
      {
        Advance();
      }
    }

    method SkipBlockComment()
      requires Valid() && pos + 1 < |chars|
      modifies this
      ensures Valid() && pos == BlockCommentEnd(chars, old(pos) + 2)
    {
      Advance();
      Advance();
      while pos < |chars|
        invariant Valid() && pos >= old(pos) + 2 && BlockCommentEnd(chars, pos) == BlockCommentEnd(chars, old(pos) + 2)
      {
        if chars[pos] == '*' && Peek(1) == Some('/') {
          Advance();
          Advance();
          return;
        }
        Advance();
      }
    }

    method ReadIdent() returns (word: string)
      requires Valid() && pos < |chars| && IdentStart(chars[pos])
      modifies this
      ensures Valid() && pos == IdentEnd(chars, old(pos) + 1) && word == chars[old(pos)..pos]
    {
      var start := pos;
      Advance();
      while pos < |chars| && IdentContinue(chars[pos])
        invariant Valid() && pos > start && IdentEnd(chars, pos) == IdentEnd(chars, start + 1)
      {
        Advance();
      }
      word := chars[start..pos];
    }

    method ReadNumber() returns (kind: Kind, text: string)
      requires Valid() && pos < |chars| && IsDigit(chars[pos])
      modifies this
      ensures Valid() && pos == NumberEnd(chars, old(pos), false).0
      ensures text == chars[old(pos)..pos] && kind == NumberKind(text, NumberEnd(chars, old(pos), false).1)
    {
      var start := pos;
      var hasDot := false;
      while pos < |chars|
        invariant Valid() && start <= pos && NumberEnd(chars, pos, hasDot) == NumberEnd(chars, start, false)
        decreases |chars| - pos
      {
        if IsDigit(chars[pos]) {
          Advance();
        } else if chars[pos] == '.' && !hasDot {
          if Peek(1) == Some('.') {
            break;
          }
          hasDot := true;
          Advance();
        } else {
          break;
        }
      }
      text := chars[start..pos];
      assert NumberEnd(chars, start, false) == (pos, hasDot);
      kind := NumberKind(text, hasDot);
    }

    method ReadString(quote: char) returns (text: Option<string>)
      requires Valid() && pos < |chars|
      modifies this
      ensures Valid()
      ensures match StringFrom(chars, old(pos) + 1, quote)
              case None => text == None
              case Some(r) => text == Some(r.0) && pos == r.1
    {
      Advance();
      ghost var first := pos;
      var parts := "";
      PrefixedNothing(StringFrom(chars, first, quote));
      while true
        invariant Valid() && first == old(pos) + 1 && first <= pos
        invariant StringFrom(chars, first, quote) == Prefixed(parts, StringFrom(chars, pos, quote))
        decreases |chars| - pos
      {
        if pos == |chars| {
          return None;
        }
        ghost var rest := StringFrom(chars, pos, quote);
        if chars[pos] == '\\' {
          Advance();
          var esc := if pos < |chars| then chars[pos] else '\\';
          PrefixedMore(parts, Unescaped(esc), StringFrom(chars, if pos < |chars| then pos + 1 else pos, quote));
          parts := parts + [Unescaped(esc)];
          Advance();
        } else if chars[pos] == quote {
          Advance();
          assert parts + "" == parts;
          return Some(parts);
        } else {
          PrefixedMore(parts, chars[pos], StringFrom(chars, pos + 1, quote));
          parts := parts + [chars[pos]];
          Advance();
        }
      }
    }

    static function Prefixed(parts: string, r: Option<(string, nat)>): Option<(string, nat)> {
      if r.Some? then Some((parts + r.value.0, r.value.1)) else None
    }

    static lemma PrefixedNothing(r: Option<(string, nat)>)
      ensures Prefixed("", r) == r
    {
      if r.Some? {
        assert "" + r.value.0 == r.value.0;
      }
    }

    static lemma PrefixedMore(parts: string, c: char, r: Option<(string, nat)>)
      ensures Prefixed(parts + [c], r) == Prefixed(parts, if r.Some? then Some(([c] + r.value.0, r.value.1)) else None)
    {
      if r.Some? {
        assert (parts + [c]) + r.value.0 == parts + ([c] + r.value.0);
      }
    }

    method ReadAttribute() returns (text: string)
      requires Valid() && pos + 1 < |chars|
      modifies this
      ensures Valid() && pos == AttributeEnd(chars, old(pos) + 2) && text == chars[old(pos)..pos]
    {
      hide LineAt, ColumnAt;
      var start := pos;
      Advance();
      Advance();
      text := chars[start..pos];
      while pos < |chars|
        invariant Valid() && start + 2 <= pos && AttributeEnd(chars, pos) == AttributeEnd(chars, start + 2)
        invariant text == chars[start..pos]
        decreases |chars| - pos
      {
        text := text + [chars[pos]];
        if chars[pos] == ']' {
          Advance();
          assert text == chars[start..pos];
          return;
        }
        Advance();
        assert text == chars[start..pos];
      }
    }

    /** Reads one token, stamped with the position of its first character. */
    method NextToken() returns (t: Option<Token>)
      requires Valid()
      modifies this
      ensures Valid()
      ensures var start := SkipEnd(chars, old(pos));
              match LexemeAt(chars, start)
              case None => t == None
              case Some(l) => t == Some(Token(l.0, LineAt(chars, start), ColumnAt(chars, start))) && pos == l.1
    {
      SkipWhitespace();
      hide SkipEnd, LexemeAt;
      var l, c := line, column;
      var lexeme := ReadLexeme();
      t := if lexeme.Some? then Some(Token(lexeme.value, l, c)) else None;
    }

    method ReadLexeme() returns (r: Option<Lexeme>)
      requires Valid()
      modifies this
      ensures Valid()
      ensures match LexemeAt(chars, old(pos))
              case None => r == None
              case Some(l) => r == Some(l.0) && pos == l.1
    {
      if pos == |chars| {
        return Some(Lexeme(Eof, ""));
      }
      var ch := chars[pos];
      if IdentStart(ch) {
        var word := ReadIdent();
        return Some(Lexeme(WordKind(word), word));
      }
      if IsDigit(ch) {
        var kind, text := ReadNumber();
        return Some(Lexeme(kind, text));
      }
      if ch == '"' || ch == '\'' {
        var s := ReadString(ch);
        if s.None? {
          return None;
        }
        return Some(Lexeme(if ch == '"' then StrLit else CharLit, s.value));
      }
      if ch == '#' && Peek(1) == Some('[') {
        var text := ReadAttribute();
        return Some(Lexeme(Attribute, text));
      }
      var l := ReadOperator();
      r := Some(l);
    }

    /** Two characters if they make an operator, else one; an unknown character becomes an odd identifier. */
    method ReadOperator() returns (l: Lexeme)
      requires Valid() && pos < |chars|
      requires !IdentStart(chars[pos]) && !IsDigit(chars[pos]) && chars[pos] != '"' && chars[pos] != '\''
      requires !(chars[pos] == '#' && pos + 1 < |chars| && chars[pos + 1] == '[')
      modifies this
      ensures Valid() && LexemeAt(chars, old(pos)) == Some((l, pos))
    {
      hide TwoCharKind, OneCharKind, IdentStart, IsDigit, LineAt, ColumnAt;
      var start := pos;
      var two := TwoCharKind(chars[pos], if Peek(1).Some? then Peek(1).value else '\0');
      if two.Some? {
        TwoCharsThere(chars, pos);
        Advance();
        Advance();
        return Lexeme(two.value, chars[start..pos]);
      }
      var ch := chars[pos];
      Advance();
      var one := OneCharKind(ch);
      l := if one.Some? then Lexeme(one.value, [ch]) else Lexeme(Identifier, ['?', ch, '?']);
    }

    method Tokenize() returns (ts: Option<seq<Token>>)
      requires Valid() && pos == 0
      modifies this
      ensures ts == TokensFrom(chars, 0)
    {
      hide LexemeAt, SkipEnd;
      var tokens: seq<Token> := [];
      CollectedNothing(TokensFrom(chars, 0));
      while true
        invariant Valid()
        invariant TokensFrom(chars, 0) == Collected(tokens, TokensFrom(chars, pos))
        decreases |chars| - pos
      {
        ghost var rest := TokensFrom(chars, pos);
        var t := NextToken();
        if t.None? {
          return None;
        }
        CollectedMore(tokens, t.value, TokensFrom(chars, pos));
        tokens := tokens + [t.value];
        if t.value.lexeme.kind == Eof {
          return Some(tokens);
        }
      }
    }

    static function Collected(tokens: seq<Token>, r: Option<seq<Token>>): Option<seq<Token>> {
      if r.Some? then Some(tokens + r.value) else None
    }

    static lemma CollectedNothing(r: Option<seq<Token>>)
      ensures Collected([], r) == r
    {
      if r.Some? {
        assert [] + r.value == r.value;
      }
    }

    static lemma CollectedMore(tokens: seq<Token>, t: Token, r: Option<seq<Token>>)
      ensures Collected(tokens + [t], r) == Collected(tokens, if r.Some? then Some([t] + r.value) else None)
    {
      if r.Some? {
        assert (tokens + [t]) + r.value == tokens + ([t] + r.value);
      }
    }
  }
}
