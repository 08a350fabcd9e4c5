/** The expression formatter (fmt/src/main.rs) against the lexer and the parser. */
module Formatter {
  import opened Prelude
  import opened Ast
  import opened Lexer
  import opened Parser
  import opened RoundTrip
  import opened TidyTokens

  // ----- printing -----

  function FormatInt(n: i64): string {
    if n < 0 then "-" + Digits(Abs(n)) else Digits(n)
  }

  /** `format_expr`: no parentheses around operands, no escapes in strings, and a placeholder for everything it does not know. */
  function Format(e: Expr): string
    decreases e, 1
  {
    match e
    case IntLiteral(n) => FormatInt(n)
    case StringLiteral(s) => "\"" + s + "\""
    case BoolLiteral(b) => if b then "true" else "false"
    case Ident(name) => name
    case BinaryOp(l, op, r) => Format(l) + (" " + Spelling(op) + " ") + Format(r)
    case Call(func, args) => Format(func) + ("(" + FormatAll(args) + ")")
    case IfExpr(c, t, f) => "if " + (Format(c) + (" { " + (Format(t) + (" } else { " + (Format(f) + " }")))))
    case _ => "?expr"
  }

  function FormatAll(es: seq<Expr>): string
    decreases es, 0
  {
    if es == [] then ""
    else if |es| == 1 then Format(es[0])
    else Format(es[0]) + (", " + FormatAll(es[1..]))
  }

  // ----- lexing stretch by stretch -----

  function Before(ls: seq<Lexeme>, rest: Option<seq<Lexeme>>): Option<seq<Lexeme>> {
    if rest.None? then None else Some(ls + rest.value)
  }

  /** The text from `p` to `q` is the tokens `ls`: lexing from `p` gives them, then what lexing from `q` gives. */
  predicate Lexes(cs: seq<char>, p: nat, ls: seq<Lexeme>, q: nat) {
    p <= q <= |cs| && LexemesFrom(cs, p) == Before(ls, LexemesFrom(cs, q))
  }

  lemma LexesJoin(cs: seq<char>, p: nat, a: seq<Lexeme>, q: nat, b: seq<Lexeme>, r: nat)
    requires Lexes(cs, p, a, q) && Lexes(cs, q, b, r)
    ensures Lexes(cs, p, a + b, r)
  {
    hide LexemesFrom;
    if LexemesFrom(cs, r).Some? {
      Assoc(a, b, LexemesFrom(cs, r).value);
    }
  }

  lemma LexesOne(cs: seq<char>, p: nat, l: Lexeme, q: nat)
    requires p < |cs| && SkipEnd(cs, p) == p && LexemeAt(cs, p) == Some((l, q))
    ensures Lexes(cs, p, [l], q)
  {
  }

  lemma NothingLexes(cs: seq<char>, p: nat)
    requires p <= |cs|
    ensures Lexes(cs, p, [], p)
  {
    var rest := LexemesFrom(cs, p);
    assert rest.Some? ==> [] + rest.value == rest.value;
  }

  lemma LexesBlank(cs: seq<char>, p: nat)
    requires p < |cs| && cs[p] == ' '
    ensures Lexes(cs, p, [], p + 1)
  {
    hide LexemeAt;
    var rest := LexemesFrom(cs, p + 1);
    assert rest.Some? ==> [] + rest.value == rest.value;
  }

  /** The kind a spelling is lexed as: a word, a run of digits, a two-character or a one-character operator. */
  function KindOf(s: string): Option<Kind> {
    if IsWord(s) then Some(WordKind(s))
    else if AllDigits(s) then Some(NumberKind(s, false))
    else if |s| == 2 then TwoCharKind(s[0], s[1])
    else if |s| == 1 then OneCharKind(s[0])
    else None
  }

  predicate IsWord(s: string) {
    s != "" && IdentStart(s[0]) && forall i :: 0 < i < |s| ==> IdentContinue(s[i])
  }

  /** The text ends here, or goes on with a blank, a parenthesis or a comma. */
  predicate Ends(cs: seq<char>, q: nat) {
    q < |cs| ==> cs[q] == ' ' || cs[q] == '(' || cs[q] == ')' || cs[q] == ','
  }

  lemma {:induction false} IdentEndsAt(cs: seq<char>, p: nat, q: nat)
    requires p <= q <= |cs| && Ends(cs, q) && forall i :: p <= i < q ==> IdentContinue(cs[i])
    ensures IdentEnd(cs, p) == q
    decreases q - p
  {
    if p < q {
      IdentEndsAt(cs, p + 1, q);
    }
  }

  lemma {:induction false} NumberEndsAt(cs: seq<char>, p: nat, q: nat)
    requires p <= q <= |cs| && Ends(cs, q) && forall i :: p <= i < q ==> IsDigit(cs[i])
    ensures NumberEnd(cs, p, false) == (q, false)
    decreases q - p
  {
    if p < q {
      NumberEndsAt(cs, p + 1, q);
    }
  }

  lemma WindowIndex(cs: seq<char>, p: nat, s: string)
    requires At(cs, p, s)
    ensures forall i :: p <= i < p + |s| ==> cs[i] == s[i - p]
  {
    forall i | p <= i < p + |s| ensures cs[i] == s[i - p] {
      AtIndex(cs, p, s, i - p);
    }
  }

  lemma WordLexes(cs: seq<char>, p: nat, s: string)
    requires At(cs, p, s) && IsWord(s) && Ends(cs, p + |s|)
    ensures Lexes(cs, p, [Lexeme(WordKind(s), s)], p + |s|)
  {
    hide Lexes, LexemesFrom;
    WindowIndex(cs, p, s);
    IdentEndsAt(cs, p + 1, p + |s|);
    LexesOne(cs, p, Lexeme(WordKind(s), s), p + |s|);
  }

  lemma DigitsLex(cs: seq<char>, p: nat, s: string)
    requires At(cs, p, s) && AllDigits(s) && Ends(cs, p + |s|)
    ensures Lexes(cs, p, [Lexeme(NumberKind(s, false), s)], p + |s|)
  {
    hide Lexes, LexemesFrom, NumberKind;
    WindowIndex(cs, p, s);
    assert IsDigit(s[0]);
    NumberEndsAt(cs, p, p + |s|);
    LexesOne(cs, p, Lexeme(NumberKind(s, false), s), p + |s|);
  }

  /** Characters that start an operator or are one start neither a word, a number, a string nor a comment here. */
  lemma OperatorLexes(cs: seq<char>, p: nat, s: string)
    requires At(cs, p, s) && Ends(cs, p + |s|)
    requires (|s| == 2 && TwoCharKind(s[0], s[1]).Some?) || (|s| == 1 && OneCharKind(s[0]).Some?)
    ensures Lexes(cs, p, [Lexeme(if |s| == 2 then TwoCharKind(s[0], s[1]).value else OneCharKind(s[0]).value, s)], p + |s|)
  {
    hide Lexes, LexemesFrom;
    WindowIndex(cs, p, s);
    assert SkipEnd(cs, p) == p;
    if |s| == 1 {
      assert TwoCharKind(cs[p], PeekAt(cs, p + 1)) == None;
      assert s == [s[0]];
    }
    LexesOne(cs, p, Lexeme(if |s| == 2 then TwoCharKind(s[0], s[1]).value else OneCharKind(s[0]).value, s), p + |s|);
  }

  /** A spelling with an end behind it is lexed as one token. */
  lemma SpellingLexes(cs: seq<char>, p: nat, s: string)
    requires At(cs, p, s) && KindOf(s).Some? && Ends(cs, p + |s|)
    ensures Lexes(cs, p, [Lexeme(KindOf(s).value, s)], p + |s|)
  {
    hide Lexes, At, Ends, TwoCharKind, OneCharKind, WordKind, NumberKind;
    if IsWord(s) {
      WordLexes(cs, p, s);
    } else if AllDigits(s) {
      DigitsLex(cs, p, s);
    } else {
      OperatorLexes(cs, p, s);
    }
  }

  function Spaced(words: seq<string>): string {
    if words == [] then "" else if |words| == 1 then words[0] else words[0] + (" " + Spaced(words[1..]))
  }

  function TokensOfWords(words: seq<string>): seq<Lexeme>
    requires forall w :: w in words ==> KindOf(w).Some?
  {
    if words == [] then [] else [Lexeme(KindOf(words[0]).value, words[0])] + TokensOfWords(words[1..])
  }

  lemma {:induction false} WordsLex(cs: seq<char>, p: nat, words: seq<string>)
    requires forall w :: w in words ==> KindOf(w).Some?
    requires At(cs, p, Spaced(words)) && p + |Spaced(words)| == |cs|
    ensures Lexes(cs, p, TokensOfWords(words), |cs|)
    decreases words
  {
    hide LexemesFrom, KindOf;
    if words == [] {
      NothingLexes(cs, p);
    } else {
      hide Lexes;
      var w := words[0];
      if |words| == 1 {
        SpellingLexes(cs, p, w);
        assert TokensOfWords(words) == [Lexeme(KindOf(w).value, w)];
      } else {
        AtSplit(cs, p, w, " " + Spaced(words[1..]));
        AtSplit(cs, p + |w|, " ", Spaced(words[1..]));
        AtIndex(cs, p + |w|, " ", 0);
        SpellingLexes(cs, p, w);
        LexesBlank(cs, p + |w|);
        WordsLex(cs, p + |w| + 1, words[1..]);
        LexesJoin(cs, p + |w|, [], p + |w| + 1, TokensOfWords(words[1..]), |cs|);
        LexesJoin(cs, p, [Lexeme(KindOf(w).value, w)], p + |w|, [] + TokensOfWords(words[1..]), |cs|);
        assert [] + TokensOfWords(words[1..]) == TokensOfWords(words[1..]);
      }
    }
  }

  /** Names, keywords, integers and operators separated by blanks are lexed as exactly those tokens. */
  lemma SpacedWordsLexBack(words: seq<string>)
    requires forall w :: w in words ==> KindOf(w).Some?
    ensures LexemesFrom(Spaced(words), 0) == Some(TokensOfWords(words) + [END])
  {
    var cs := Spaced(words);
    assert At(cs, 0, cs);
    WordsLex(cs, 0, words);
    EndLexes(cs);
  }

  // ----- strings -----

  predicate NoEscape(s: string) {
    forall i :: 0 <= i < |s| ==> s[i] != '"' && s[i] != '\\'
  }

  lemma {:induction false} StringEndsAt(cs: seq<char>, p: nat, s: string)
    requires At(cs, p, s) && p + |s| < |cs| && cs[p + |s|] == '"' && NoEscape(s)
    ensures StringFrom(cs, p, '"') == Some((s, p + |s| + 1))
    decreases s
  {
    if s != "" {
      AtIndex(cs, p, s, 0);
      assert s == [s[0]] + s[1..];
      AtSplit(cs, p, [s[0]], s[1..]);
      StringEndsAt(cs, p + 1, s[1..]);
    }
  }

  /** What is read is never longer than its source, and shorter by every backslash. */
  lemma {:induction false} StringLength(cs: seq<char>, p: nat)
    requires p <= |cs| && StringFrom(cs, p, '"').Some?
    ensures var r := StringFrom(cs, p, '"').value;
            && p + |r.0| < r.1
            && (p + |r.0| + 1 == r.1 ==> At(cs, p, r.0) && NoEscape(r.0))
    decreases |cs| - p
  {
    var r := StringFrom(cs, p, '"').value;
    if cs[p] == '\\' {
      StringLength(cs, if p + 1 < |cs| then p + 2 else p + 1);
    } else if cs[p] != '"' {
      StringLength(cs, p + 1);
      var rest := StringFrom(cs, p + 1, '"').value;
      if p + |r.0| + 1 == r.1 {
        assert cs[p..p + |r.0|] == [cs[p]] + cs[p + 1..p + 1 + |rest.0|];
      }
    }
  }

  /** A printed string is read back as itself exactly if it has no quote and no backslash. */
  lemma StringComesBackIff(s: string)
    ensures var printed := Format(StringLiteral(s));
            LexemeAt(printed, 0) == Some((Lexeme(StrLit, s), |printed|)) <==> NoEscape(s)
  {
    var printed := Format(StringLiteral(s));
    assert printed == "\"" + s + "\"";
    if NoEscape(s) {
      assert At(printed, 1, s);
      StringEndsAt(printed, 1, s);
    }
    if LexemeAt(printed, 0) == Some((Lexeme(StrLit, s), |printed|)) {
      StringLength(printed, 1);
    }
  }

  lemma StringLexes(cs: seq<char>, p: nat, s: string)
    requires At(cs, p, "\"" + s + "\"") && NoEscape(s)
    ensures Lexes(cs, p, [Lexeme(StrLit, s)], p + |s| + 2)
  {
    hide Lexes, LexemesFrom, NoEscape;
    AtSplit(cs, p, "\"" + s, "\"");
    AtSplit(cs, p, "\"", s);
    AtIndex(cs, p, "\"", 0);
    AtIndex(cs, p + 1 + |s|, "\"", 0);
    StringEndsAt(cs, p + 1, s);
    LexesOne(cs, p, Lexeme(StrLit, s), p + |s| + 2);
  }

  // ----- trees -----

  /** Trees the formatter can print: names that lex as names, strings without escapes, no unary operators. */
  predicate Printable(e: Expr)
    decreases e, 1
  {
    match e
    case IntLiteral(n) => n >= 0
    case StringLiteral(s) => NoEscape(s)
    case BoolLiteral(_) => true
    case Ident(name) => IsWord(name) && WordKind(name) == Identifier && name !in OPTION_WORDS
    case BinaryOp(l, _, r) => Printable(l) && Printable(r)
    case Call(func, args) => (func.Ident? || func.Call?) && Printable(func) && PrintableAll(args)
    case IfExpr(c, t, f) => Printable(c) && Printable(t) && Printable(f)
    case _ => false
  }

  predicate PrintableAll(es: seq<Expr>)
    decreases es, 0
  {
    es == [] || (Printable(es[0]) && PrintableAll(es[1..]))
  }

  lemma {:induction false} PrintableIsWritten(e: Expr)
    requires Printable(e)
    ensures Written(e)
    decreases e, 1
  {
    match e {
      case BinaryOp(l, _, r) => PrintableIsWritten(l); PrintableIsWritten(r);
      case Call(func, args) => PrintableIsWritten(func); PrintableAreWritten(args);
      case IfExpr(c, t, f) => PrintableIsWritten(c); PrintableIsWritten(t); PrintableIsWritten(f);
      case _ =>
    }
  }

  lemma {:induction false} PrintableAreWritten(es: seq<Expr>)
    requires PrintableAll(es)
    ensures WrittenAll(es)
    decreases es, 0
  {
    if es != [] {
      PrintableIsWritten(es[0]);
      PrintableAreWritten(es[1..]);
    }
  }

  /** The text of a tree is lexed as the tree's tokens. */
  lemma {:induction false} FormatLexes(cs: seq<char>, p: nat, e: Expr)
    requires Printable(e) && At(cs, p, Format(e)) && Ends(cs, p + |Format(e)|)
    ensures Written(e) && Lexes(cs, p, TokensOf(e), p + |Format(e)|)
    decreases e, 1
  {
    hide Lexes, At, Ends;
    PrintableIsWritten(e);
    match e {
      case IntLiteral(n) => IntLexes(cs, p, n);
      case StringLiteral(s) => StringLexes(cs, p, s);
      case BoolLiteral(b) => WordLexes(cs, p, Format(e));
      case Ident(name) => WordLexes(cs, p, name);
      case BinaryOp(l, op, r) => BinaryLexes(cs, p, e);
      case Call(func, args) => CallLexes(cs, p, e);
      case IfExpr(_, _, _) => IfLexes(cs, p, e);
    }
  }

  lemma IntLexes(cs: seq<char>, p: nat, n: i64)
    requires n >= 0 && At(cs, p, Digits(n)) && Ends(cs, p + |Digits(n)|)
    ensures Lexes(cs, p, [Lexeme(IntLit, Digits(n))], p + |Digits(n)|)
  {
    hide Lexes, At, Ends, Digits;
    DigitsReadBack(n);
    DigitsLex(cs, p, Digits(n));
  }

  lemma OpSpelling(op: BinOp)
    ensures KindOf(Spelling(op)) == Some(Operator(op))
  {
    var s := Spelling(op);
    assert !IdentStart(s[0]) && s[0] in s && !IsDigit(s[0]);
  }

  lemma {:induction false} BinaryLexes(cs: seq<char>, p: nat, e: Expr)
    requires e.BinaryOp? && Printable(e) && Written(e) && At(cs, p, Format(e)) && Ends(cs, p + |Format(e)|)
    ensures Lexes(cs, p, TokensOf(e), p + |Format(e)|)
    decreases e, 0
  {
    hide Lexes, KindOf, Spelling, Printable, Written, At, Ends, Format, TokensOf;
    BinaryPrintable(e);
    BinaryText(cs, p, e);
    var q, r, end := p + |Format(e.left)|, p + |Format(e.left)| + |Spelling(e.op)| + 2, p + |Format(e)|;
    FormatLexes(cs, p, e.left);
    SpacedOperator(cs, q, e.op);
    FormatLexes(cs, r, e.right);
    LexesJoin(cs, p, TokensOf(e.left), q, [OpLexeme(e.op)], r);
    LexesJoin(cs, p, TokensOf(e.left) + [OpLexeme(e.op)], r, TokensOf(e.right), end);
  }

  lemma BinaryText(cs: seq<char>, p: nat, e: Expr)
    requires e.BinaryOp? && At(cs, p, Format(e))
    ensures var q := p + |Format(e.left)|;
            var r := q + |Spelling(e.op)| + 2;
            && At(cs, p, Format(e.left)) && Ends(cs, q) && At(cs, q, " " + Spelling(e.op) + " ")
            && At(cs, r, Format(e.right)) && r + |Format(e.right)| == p + |Format(e)|
  {
    hide Spelling;
    var l, op, r := Format(e.left), " " + Spelling(e.op) + " ", Format(e.right);
    AtSplit(cs, p, l + op, r);
    AtSplit(cs, p, l, op);
    AtIndex(cs, p + |l|, op, 0);
  }

  lemma BinaryPrintable(e: Expr)
    requires e.BinaryOp? && Printable(e) && Written(e)
    ensures Printable(e.left) && Printable(e.right) && Written(e.left) && Written(e.right)
    ensures TokensOf(e) == TokensOf(e.left) + [OpLexeme(e.op)] + TokensOf(e.right)
  {
  }

  // ----- words with blanks around them -----

  function Padded(words: seq<string>): string {
    if words == [] then " " else " " + (words[0] + Padded(words[1..]))
  }

  lemma {:induction false} PaddedLexes(cs: seq<char>, p: nat, words: seq<string>)
    requires forall w :: w in words ==> KindOf(w).Some?
    requires At(cs, p, Padded(words))
    ensures Lexes(cs, p, TokensOfWords(words), p + |Padded(words)|)
    decreases words
  {
    hide Lexes, LexemesFrom, KindOf;
    if words == [] {
      AtIndex(cs, p, " ", 0);
      LexesBlank(cs, p);
    } else {
      var w, rest := words[0], Padded(words[1..]);
      AtSplit(cs, p, " ", w + rest);
      AtSplit(cs, p + 1, w, rest);
      AtIndex(cs, p, " ", 0);
      AtIndex(cs, p + 1 + |w|, rest, 0);
      LexesBlank(cs, p);
      SpellingLexes(cs, p + 1, w);
      PaddedLexes(cs, p + 1 + |w|, words[1..]);
      var l, ls, q, end := [Lexeme(KindOf(w).value, w)], TokensOfWords(words[1..]), p + 1 + |w|, p + |Padded(words)|;
      LexesJoin(cs, p, [], p + 1, l, q);
      assert [] + l == l;
      LexesJoin(cs, p, l, q, ls, end);
    }
  }

  lemma MarkKind(s: string)
    requires s == "{" || s == "}"
    ensures KindOf(s) == Some(if s == "{" then LBrace else RBrace)
  {
    assert !IdentStart(s[0]) && s[0] in s && !IsDigit(s[0]);
  }

  lemma WordKinds(s: string)
    requires s == "if" || s == "else"
    ensures KindOf(s) == Some(Keyword)
  {
    assert IsWord(s);
  }

  lemma BlockWords()
    ensures forall w :: w in ["{"] || w in ["}", "else", "{"] || w == "if" || w == "}" ==> KindOf(w).Some?
    ensures Padded(["{"]) == " { " && TokensOfWords(["{"]) == [OPENBLOCK]
    ensures Padded(["}", "else", "{"]) == " } else { " && TokensOfWords(["}", "else", "{"]) == [CLOSEBLOCK, ELSE, OPENBLOCK]
  {
    hide KindOf;
    MarkKind("{");
    MarkKind("}");
    WordKinds("if");
    WordKinds("else");
    assert ["{"][1..] == [] && ["}", "else", "{"][1..] == ["else", "{"] && ["else", "{"][1..] == ["{"];
  }

  lemma SpacedOperator(cs: seq<char>, p: nat, op: BinOp)
    requires At(cs, p, " " + Spelling(op) + " ")
    ensures Lexes(cs, p, [OpLexeme(op)], p + |Spelling(op)| + 2)
  {
    var s := Spelling(op);
    OpSpelling(op);
    hide Lexes, KindOf, Spelling;
    AtSplit(cs, p, " " + s, " ");
    AtSplit(cs, p, " ", s);
    AtIndex(cs, p, " ", 0);
    AtIndex(cs, p + 1 + |s|, " ", 0);
    LexesBlank(cs, p);
    SpellingLexes(cs, p + 1, s);
    LexesBlank(cs, p + 1 + |s|);
    LexesJoin(cs, p, [], p + 1, [OpLexeme(op)], p + 1 + |s|);
    LexesJoin(cs, p, [] + [OpLexeme(op)], p + 1 + |s|, [], p + |s| + 2);
    assert [] + [OpLexeme(op)] + [] == [OpLexeme(op)];
  }

  lemma {:induction false} CallLexes(cs: seq<char>, p: nat, e: Expr)
    requires e.Call? && Printable(e) && Written(e) && At(cs, p, Format(e)) && Ends(cs, p + |Format(e)|)
    ensures Lexes(cs, p, TokensOf(e), p + |Format(e)|)
    decreases e, 0
  {
    hide Lexes, Printable, Written, At, Ends, Format, FormatAll, TokensOf, ArgTokens;
    CallPrintable(e);
    CallText(cs, p, e);
    var f, a := TokensOf(e.func), ArgTokens(e.args);
    var q, end := p + |Format(e.func)|, p + |Format(e)|;
    FormatLexes(cs, p, e.func);
    MarkLexes(cs, q);
    ArgumentsLex(cs, q + 1, e.args);
    MarkLexes(cs, end - 1);
    LexesJoin(cs, q, [OPEN], q + 1, a, end - 1);
    LexesJoin(cs, q, [OPEN] + a, end - 1, [CLOSE], end);
    LexesJoin(cs, p, f, q, [OPEN] + a + [CLOSE], end);
  }

  lemma CallText(cs: seq<char>, p: nat, e: Expr)
    requires e.Call? && At(cs, p, Format(e))
    ensures var q := p + |Format(e.func)|;
            var r := q + 1 + |FormatAll(e.args)|;
            && At(cs, p, Format(e.func)) && Ends(cs, q) && r < |cs| && cs[q] == '(' && cs[r] == ')'
            && At(cs, q + 1, FormatAll(e.args)) && r + 1 == p + |Format(e)|
  {
    var f, a := Format(e.func), FormatAll(e.args);
    AtSplit(cs, p, f, "(" + a + ")");
    AtSplit(cs, p + |f|, "(" + a, ")");
    AtSplit(cs, p + |f|, "(", a);
    AtIndex(cs, p + |f|, "(", 0);
    AtIndex(cs, p + |f| + 1 + |a|, ")", 0);
  }

  lemma CallPrintable(e: Expr)
    requires e.Call? && Printable(e) && Written(e)
    ensures Printable(e.func) && PrintableAll(e.args) && Written(e.func) && WrittenAll(e.args)
    ensures TokensOf(e) == TokensOf(e.func) + ([OPEN] + ArgTokens(e.args) + [CLOSE])
  {
  }

  lemma {:induction false} IfLexes(cs: seq<char>, p: nat, e: Expr)
    requires e.IfExpr? && Printable(e) && Written(e) && At(cs, p, Format(e)) && Ends(cs, p + |Format(e)|)
    ensures Lexes(cs, p, TokensOf(e), p + |Format(e)|)
    decreases e, 0
  {
    hide Lexes, Printable, Written, At, Ends, Format, TokensOf, KindOf, Padded, TokensOfWords;
    IfPrintable(e);
    IfTokens(e);
    IfText(cs, p, e);
    BlockWords();
    var c, t, f := TokensOf(e.cond), TokensOf(e.thn), TokensOf(e.els);
    var q := p + 3 + |Format(e.cond)|;
    var r := q + 3 + |Format(e.thn)|;
    var s, end := r + 10 + |Format(e.els)|, p + |Format(e)|;
    WordIf(cs, p);
    FormatLexes(cs, p + 3, e.cond);
    PaddedLexes(cs, q, ["{"]);
    FormatLexes(cs, q + 3, e.thn);
    PaddedLexes(cs, r, ["}", "else", "{"]);
    FormatLexes(cs, r + 10, e.els);
    ClosingBrace(cs, s);
    LexesJoin(cs, p, [IF], p + 3, c, q);
    LexesJoin(cs, p, [IF] + c, q, [OPENBLOCK], q + 3);
    LexesJoin(cs, p, [IF] + c + [OPENBLOCK], q + 3, t, r);
    LexesJoin(cs, p, [IF] + c + [OPENBLOCK] + t, r, [CLOSEBLOCK, ELSE, OPENBLOCK], r + 10);
    LexesJoin(cs, p, [IF] + c + [OPENBLOCK] + t + [CLOSEBLOCK, ELSE, OPENBLOCK], r + 10, f, s);
    LexesJoin(cs, p, [IF] + c + [OPENBLOCK] + t + [CLOSEBLOCK, ELSE, OPENBLOCK] + f, s, [CLOSEBLOCK], end);
    IfRegroup(c, t, f);
  }

  lemma IfRegroup(c: seq<Lexeme>, t: seq<Lexeme>, f: seq<Lexeme>)
    ensures [IF] + c + [OPENBLOCK] + t + [CLOSEBLOCK, ELSE, OPENBLOCK] + f + [CLOSEBLOCK]
         == Conditional(c, t, f)
  {
    assert [CLOSEBLOCK, ELSE, OPENBLOCK] == [CLOSEBLOCK] + [ELSE] + [OPENBLOCK];
  }

  lemma IfPrintable(e: Expr)
    requires e.IfExpr? && Printable(e) && Written(e)
    ensures Printable(e.cond) && Printable(e.thn) && Printable(e.els)
  {
  }

  lemma IfText(cs: seq<char>, p: nat, e: Expr)
    requires e.IfExpr? && At(cs, p, Format(e))
    ensures var q := p + 3 + |Format(e.cond)|;
            var r := q + 3 + |Format(e.thn)|;
            var s := r + 10 + |Format(e.els)|;
            && At(cs, p, "if ") && At(cs, p + 3, Format(e.cond)) && At(cs, q, " { ") && At(cs, q + 3, Format(e.thn))
            && At(cs, r, " } else { ") && At(cs, r + 10, Format(e.els)) && At(cs, s, " }") && s + 2 == p + |Format(e)|
            && Ends(cs, q) && Ends(cs, r) && Ends(cs, s)
  {
    var c, t, f := Format(e.cond), Format(e.thn), Format(e.els);
    IfFormat(e);
    hide Format, At, Ends;
    ThreeHeads(cs, p, "if ", c, " { ", t, " } else { ", f, " }");
  }

  predicate Blank(mark: string) {
    mark != "" && mark[0] == ' '
  }

  lemma ThreeHeads(cs: seq<char>, p: nat, m1: string, c: string, m2: string, t: string, m3: string, f: string, m4: string)
    requires m1 != "" && Blank(m2) && Blank(m3) && Blank(m4)
    requires At(cs, p, m1 + (c + (m2 + (t + (m3 + (f + m4))))))
    ensures var q := p + |m1| + |c|;
            var r := q + |m2| + |t|;
            var s := r + |m3| + |f|;
            && At(cs, p, m1) && At(cs, p + |m1|, c) && At(cs, q, m2) && At(cs, q + |m2|, t)
            && At(cs, r, m3) && At(cs, r + |m3|, f) && At(cs, s, m4)
            && Ends(cs, q) && Ends(cs, r) && Ends(cs, s)
  {
    hide At, Ends;
    HeadText(cs, p, m1, c, m2 + (t + (m3 + (f + m4))));
    HeadText(cs, p + |m1| + |c|, m2, t, m3 + (f + m4));
    HeadText(cs, p + |m1| + |c| + |m2| + |t|, m3, f, m4);
  }

  lemma IfFormat(e: Expr)
    requires e.IfExpr?
    ensures Format(e) == "if " + (Format(e.cond) + (" { " + (Format(e.thn) + (" } else { " + (Format(e.els) + " }")))))
  {
  }

  lemma HeadText(cs: seq<char>, p: nat, mark: string, s: string, rest: string)
    requires At(cs, p, mark + (s + rest)) && mark != "" && rest != "" && rest[0] == ' '
    ensures At(cs, p, mark) && At(cs, p + |mark|, s) && At(cs, p + |mark| + |s|, rest)
    ensures Ends(cs, p + |mark| + |s|)
  {
    AtSplit(cs, p, mark, s + rest);
    AtSplit(cs, p + |mark|, s, rest);
    AtIndex(cs, p + |mark| + |s|, rest, 0);
  }

  lemma WordIf(cs: seq<char>, p: nat)
    requires At(cs, p, "if ")
    ensures Lexes(cs, p, [IF], p + 3)
  {
    hide Lexes;
    AtSplit(cs, p, "if", " ");
    AtIndex(cs, p, "if ", 2);
    WordLexes(cs, p, "if");
    LexesBlank(cs, p + 2);
    LexesJoin(cs, p, [IF], p + 2, [], p + 3);
    assert [IF] + [] == [IF];
  }

  lemma ClosingBrace(cs: seq<char>, p: nat)
    requires At(cs, p, " }") && Ends(cs, p + 2)
    ensures Lexes(cs, p, [CLOSEBLOCK], p + 2)
  {
    hide Lexes;
    AtSplit(cs, p, " ", "}");
    AtIndex(cs, p, " }", 0);
    LexesBlank(cs, p);
    OperatorLexes(cs, p + 1, "}");
    LexesJoin(cs, p, [], p + 1, [CLOSEBLOCK], p + 2);
    assert [] + [CLOSEBLOCK] == [CLOSEBLOCK];
  }

  /** Parentheses and commas are tokens whatever follows them. */
  lemma MarkLexes(cs: seq<char>, p: nat)
    requires p < |cs| && (cs[p] == '(' || cs[p] == ')' || cs[p] == ',')
    ensures Lexes(cs, p, [if cs[p] == '(' then OPEN else if cs[p] == ')' then CLOSE else COMMA], p + 1)
  {
    hide Lexes, LexemesFrom;
    LexesOne(cs, p, if cs[p] == '(' then OPEN else if cs[p] == ')' then CLOSE else COMMA, p + 1);
  }

  lemma {:induction false} ArgumentsLex(cs: seq<char>, p: nat, es: seq<Expr>)
    requires PrintableAll(es) && At(cs, p, FormatAll(es))
    requires p + |FormatAll(es)| < |cs| && cs[p + |FormatAll(es)|] == ')'
    ensures WrittenAll(es) && Lexes(cs, p, ArgTokens(es), p + |FormatAll(es)|)
    decreases es, 0
  {
    hide At, Lexes, LexemesFrom, Format, TokensOf, Printable, Written;
    PrintableAreWritten(es);
    if es == [] {
      NothingLexes(cs, p);
    } else if |es| == 1 {
      FormatLexes(cs, p, es[0]);
    } else {
      hide FormatAll, ArgTokens;
      ArgumentText(cs, p, es);
      var q, end := p + |Format(es[0])|, p + |FormatAll(es)|;
      var t, ts := TokensOf(es[0]), ArgTokens(es[1..]);
      FormatLexes(cs, p, es[0]);
      MarkLexes(cs, q);
      LexesBlank(cs, q + 1);
      ArgumentsLex(cs, q + 2, es[1..]);
      LexesJoin(cs, q, [COMMA], q + 1, [], q + 2);
      LexesJoin(cs, q, [COMMA] + [], q + 2, ts, end);
      assert [COMMA] + [] == [COMMA];
      LexesJoin(cs, p, t, q, [COMMA] + ts, end);
      MoreTokens(es);
    }
  }

  lemma MoreTokens(es: seq<Expr>)
    requires |es| > 1 && WrittenAll(es)
    ensures ArgTokens(es) == TokensOf(es[0]) + ([COMMA] + ArgTokens(es[1..]))
  {
  }

  lemma MoreFormat(es: seq<Expr>)
    requires |es| > 1
    ensures FormatAll(es) == Format(es[0]) + (", " + FormatAll(es[1..]))
  {
  }

  lemma ArgumentText(cs: seq<char>, p: nat, es: seq<Expr>)
    requires |es| > 1 && At(cs, p, FormatAll(es))
    ensures var q := p + |Format(es[0])|;
            && At(cs, p, Format(es[0])) && q + 2 <= |cs| && cs[q] == ',' && cs[q + 1] == ' '
            && At(cs, q + 2, FormatAll(es[1..])) && q + 2 + |FormatAll(es[1..])| == p + |FormatAll(es)|
  {
    var f, rest := Format(es[0]), FormatAll(es[1..]);
    MoreFormat(es);
    hide Format, FormatAll, At;
    AtSplit(cs, p, f, ", " + rest);
    AtSplit(cs, p + |f|, ", ", rest);
    AtIndex(cs, p + |f|, ", ", 0);
    AtIndex(cs, p + |f|, ", ", 1);
  }

  lemma FormattedTokens(e: Expr)
    requires Printable(e)
    ensures Written(e) && LexemesFrom(Format(e), 0) == Some(TokensOf(e) + [END])
  {
    var cs := Format(e);
    assert At(cs, 0, cs);
    FormatLexes(cs, 0, e);
    EndLexes(cs);
  }

  // ----- printing and reading back -----

  /** Lexing the text and parsing all of it up to the end of input as one expression. */
  function ReadBack(text: string): Option<Expr> {
    match LexemesFrom(text, 0)
    case None => None
    case Some(ls) =>
      match ParseExpr(ls, 0)
      case Failure => None
      case Parsed(e, q) => if Cur(ls, q).kind == Eof then Some(e) else None
  }

  /** A printable tree is read back as itself exactly if it is canonical. */
  lemma ComesBackIffCanonical(e: Expr)
    requires Printable(e)
    ensures ReadBack(Format(e)) == Some(e) <==> Canonical(e)
  {
    hide LexemesFrom, ParseExpr, Format, TokensOf;
    FormattedTokens(e);
    ParsesBackIffCanonical(e);
    if ReadBack(Format(e)) == Some(e) {
      var ls := TokensOf(e) + [END];
      assert ParseExpr(ls, 0).Parsed? && ParseExpr(ls, 0).e == e;
      ShapeOfTree(e);
    }
  }

  /** A conditional with a conditional for its then-branch prints as itself and is read back with 0 in that branch. */
  lemma NestedConditionalReadsZero(c: Expr, t: Expr, f: Expr)
    requires Printable(c) && Canonical(c) && t.IfExpr? && Printable(t) && Canonical(t)
    requires Printable(f) && Canonical(f) && !StartsIf(f)
    ensures ReadBack(Format(IfExpr(c, t, f))) == Some(IfExpr(c, IntLiteral(0), f))
  {
    var e := IfExpr(c, t, f);
    assert Printable(e);
    hide LexemesFrom, ParseExpr, Format, TokensOf, Canonical, Printable;
    FormattedTokens(e);
    PrintableIsWritten(c);
    PrintableIsWritten(t);
    PrintableIsWritten(f);
    NestedConditionalIsLost(c, t, f);
  }

  /** Canonical trees that print alike are equal. */
  lemma FormatIsInjective(a: Expr, b: Expr)
    requires Printable(a) && Printable(b) && Canonical(a) && Canonical(b) && Format(a) == Format(b)
    ensures a == b
  {
    hide Format, ReadBack;
    ComesBackIffCanonical(a);
    ComesBackIffCanonical(b);
  }

  /** A negative literal is read back as a negation; the smallest one, whose digits do not fit, as a negated name. */
  lemma NegativesComeBackNegated(n: i64)
    requires n < 0
    ensures ReadBack(Format(IntLiteral(n)))
         == Some(UnaryOp(Negate, if n == -TWO_63 then Ident(Digits(TWO_63)) else IntLiteral(Abs(n))))
  {
    hide Lexes, LexemesFrom, ParseExpr, Digits;
    var d := Digits(Abs(n));
    DigitsReadBack(Abs(n));
    var kind := NumberKind(d, false);
    NegativeTokens(n);
    NegatedParses([OpLexeme(Minus), Lexeme(kind, d), END], kind, d);
  }

  lemma NegativeTokens(n: i64)
    requires n < 0 && AllDigits(Digits(Abs(n)))
    ensures var d := Digits(Abs(n));
            LexemesFrom(Format(IntLiteral(n)), 0) == Some([OpLexeme(Minus), Lexeme(NumberKind(d, false), d), END])
  {
    hide Digits, NumberKind, LexemeAt;
    var cs, d := Format(IntLiteral(n)), Digits(Abs(n));
    var l := Lexeme(NumberKind(d, false), d);
    assert At(cs, 1, d) && d[0] in d;
    MinusLexes(cs, d);
    DigitsLex(cs, 1, d);
    LexesJoin(cs, 0, [OpLexeme(Minus)], 1, [l], |cs|);
    EndLexes(cs);
    assert [OpLexeme(Minus)] + [l] + [END] == [OpLexeme(Minus), l, END];
  }

  lemma EndLexes(cs: seq<char>)
    ensures LexemesFrom(cs, |cs|) == Some([END])
  {
    hide LexemeAt, SkipEnd;
    NothingSkipped(cs);
    EndLexeme(cs);
  }

  lemma NothingSkipped(cs: seq<char>)
    ensures SkipEnd(cs, |cs|) == |cs|
  {
  }

  lemma EndLexeme(cs: seq<char>)
    ensures LexemeAt(cs, |cs|) == Some((END, |cs|))
  {
  }

  lemma MinusLexes(cs: seq<char>, d: string)
    requires cs == "-" + d && d != "" && IsDigit(d[0])
    ensures Lexes(cs, 0, [OpLexeme(Minus)], 1)
  {
    hide Lexes, LexemesFrom;
    LexesOne(cs, 0, OpLexeme(Minus), 1);
  }

  lemma NegatedParses(ls: seq<Lexeme>, kind: Kind, d: string)
    requires ls == [OpLexeme(Minus), Lexeme(kind, d), END] && AllDigits(d)
    requires kind == if Decimal(d) < TWO_63 then IntLit else Identifier
    ensures ParseExpr(ls, 0)
         == Parsed(UnaryOp(Negate, if kind == IntLit then IntLiteral(Decimal(d)) else Ident(d)), 2)
  {
    var e := if kind == IntLit then IntLiteral(Decimal(d)) else Ident(d);
    if kind == Identifier {
      assert d[0] in d && IsDigit(d[0]);
      assert d !in OPTION_WORDS;
      NameParses(ls, 1);
    } else {
      assert ParsePrimary(ls, 1) == Parsed(e, 2);
    }
    assert ParseUnary(ls, 1) == Parsed(e, 2);
    assert ParseUnary(ls, 0) == Parsed(UnaryOp(Negate, e), 2);
    assert ClimbFrom(ls, UnaryOp(Negate, e), 2, 0) == Parsed(UnaryOp(Negate, e), 2);
    assert ParsePipes(ls, 2) == ParsedStages([], 2);
  }
}
