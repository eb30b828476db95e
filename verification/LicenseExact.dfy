/**
  The grammar of license expressions is unambiguous, and a printed tree is read back as
  itself exactly when all its words survive the tokenizer.
 */
module LicenseExact {
  import opened Wrappers
  import opened License
  import opened LicenseGrammar

  // ---------------------------------------------------------------------------
  // One derivation for every sentence
  // ---------------------------------------------------------------------------

  /** A derivation read off the front of a token list, and what remains. */
  datatype Built = Built(c: Cst, rest: seq<Token>) | Stuck

  function BuildPrimary(ts: seq<Token>): (b: Built)
    ensures b.Built? ==> |b.rest| < |ts|
    decreases |ts|, 0
  {
    if ts == [] then Stuck
    else if ts[0] == Open then
      var inner := BuildOr(ts[1..]);
      if inner.Stuck? || !Next(inner.rest, Closing) then Stuck else Built(CParen(inner.c), inner.rest[1..])
    else if ts[0].Identifier? then Built(CName(ts[0].value), ts[1..])
    else Stuck
  }

  function BuildWithTail(c: Cst, ts: seq<Token>): (b: Built)
    ensures b.Built? ==> |b.rest| <= |ts|
    decreases |ts|
  {
    if !Next(ts, WithWord) then Built(c, ts)
    else if |ts| < 2 || !ts[1].Identifier? then Stuck
    else BuildWithTail(CWith(c, ts[1].value), ts[2..])
  }

  function BuildWith(ts: seq<Token>): (b: Built)
    ensures b.Built? ==> |b.rest| < |ts|
    decreases |ts|, 1
  {
    var first := BuildPrimary(ts);
    if first.Stuck? then first else BuildWithTail(first.c, first.rest)
  }

  function BuildAndTail(c: Cst, ts: seq<Token>): (b: Built)
    ensures b.Built? ==> |b.rest| <= |ts|
    decreases |ts|, 2
  {
    if !Next(ts, AndWord) then Built(c, ts)
    else
      var right := BuildWith(ts[1..]);
      if right.Stuck? then right else BuildAndTail(CAnd(c, right.c), right.rest)
  }

  function BuildAnd(ts: seq<Token>): (b: Built)
    ensures b.Built? ==> |b.rest| < |ts|
    decreases |ts|, 3
  {
    var first := BuildWith(ts);
    if first.Stuck? then first else BuildAndTail(first.c, first.rest)
  }

  function BuildOrTail(c: Cst, ts: seq<Token>): (b: Built)
    ensures b.Built? ==> |b.rest| <= |ts|
    decreases |ts|, 4
  {
    if !Next(ts, OrWord) then Built(c, ts)
    else
      var right := BuildAnd(ts[1..]);
      if right.Stuck? then right else BuildOrTail(COr(c, right.c), right.rest)
  }

  function BuildOr(ts: seq<Token>): (b: Built)
    ensures b.Built? ==> |b.rest| < |ts|
    decreases |ts|, 5
  {
    var first := BuildAnd(ts);
    if first.Stuck? then first else BuildOrTail(first.c, first.rest)
  }

  lemma {:induction false} RebuildPrimary(c: Cst, rest: seq<Token>)
    requires IsPrimary(c)
    ensures BuildPrimary(Tokens(c) + rest) == Built(c, rest)
    decreases c, 0
  {
    hide BuildOr;
    if c.CParen? {
      var ts := Tokens(c) + rest;
      assert ts[1..] == Tokens(c.inner) + ([Closing] + rest);
      RebuildOr(c.inner, [Closing] + rest);
    }
  }

  lemma {:induction false} RebuildWith(c: Cst, rest: seq<Token>)
    requires IsWith(c)
    ensures BuildWith(Tokens(c) + rest) == BuildWithTail(c, rest)
    decreases c, 1
  {
    hide BuildPrimary;
    if c.CWith? {
      var more := [WithWord, Identifier(c.exception)] + rest;
      assert Tokens(c) + rest == Tokens(c.base) + more;
      RebuildWith(c.base, more);
      assert more[2..] == rest;
    } else {
      RebuildPrimary(c, rest);
    }
  }

  lemma {:induction false} RebuildAnd(c: Cst, rest: seq<Token>)
    requires IsAnd(c) && !Next(rest, WithWord)
    ensures BuildAnd(Tokens(c) + rest) == BuildAndTail(c, rest)
    decreases c, 2
  {
    hide BuildWith, Tokens;
    if c.CAnd? {
      var more := [AndWord] + (Tokens(c.right) + rest);
      assert Tokens(c) + rest == Tokens(c.left) + more by { TokensOf(c); }
      RebuildAnd(c.left, more);
      assert more[1..] == Tokens(c.right) + rest;
      RebuildWith(c.right, rest);
    } else {
      RebuildWith(c, rest);
    }
  }

  lemma {:induction false} RebuildOr(c: Cst, rest: seq<Token>)
    requires IsOr(c) && !Next(rest, WithWord) && !Next(rest, AndWord)
    ensures BuildOr(Tokens(c) + rest) == BuildOrTail(c, rest)
    decreases c, 3
  {
    hide BuildAnd, Tokens;
    if c.COr? {
      var more := [OrWord] + (Tokens(c.right) + rest);
      assert Tokens(c) + rest == Tokens(c.left) + more by { TokensOf(c); }
      RebuildOr(c.left, more);
      assert more[1..] == Tokens(c.right) + rest;
      RebuildAnd(c.right, rest);
    } else {
      RebuildAnd(c, rest);
    }
  }

  /** The grammar is unambiguous: a token list has at most one derivation, parentheses included. */
  lemma OneDerivation(c: Cst, d: Cst)
    requires IsOr(c) && IsOr(d) && Tokens(c) == Tokens(d)
    ensures c == d
  {
    hide BuildOr, Tokens, IsOr;
    RebuildOr(c, []);
    RebuildOr(d, []);
    assert Tokens(c) + [] == Tokens(d) + [];
  }

  // ---------------------------------------------------------------------------
  // Words the tokenizer splits or takes for operators
  // ---------------------------------------------------------------------------

  predicate IsWordToken(t: Token) {
    t.AndWord? || t.OrWord? || t.WithWord?
  }

  /** An operator stands where no sentence has one: first, or behind neither a name nor a closing parenthesis. */
  predicate Misplaced(ts: seq<Token>, i: int) {
    0 <= i < |ts| && IsWordToken(ts[i]) && (i == 0 || !(ts[i - 1].Identifier? || ts[i - 1].Closing?))
  }

  ghost predicate SomeMisplaced(ts: seq<Token>) {
    exists i :: Misplaced(ts, i)
  }

  lemma {:induction false} SentenceProper(c: Cst)
    ensures !SomeMisplaced(Tokens(c))
    ensures var ts := Tokens(c); ts[|ts| - 1].Identifier? || ts[|ts| - 1].Closing?
  {
    hide Misplaced;
    match c {
      case CName(id) => ProperOne(Identifier(id));
      case CParen(inner) =>
        SentenceProper(inner);
        ProperOne(Open);
        ProperOne(Closing);
        ProperConcat([Open], Tokens(inner));
        ProperConcat([Open] + Tokens(inner), [Closing]);
      case CWith(base, x) =>
        SentenceProper(base);
        ProperOne(Identifier(x));
        ProperOperator(Tokens(base), WithWord, [Identifier(x)]);
        assert Tokens(c) == Tokens(base) + [WithWord] + [Identifier(x)];
      case CAnd(l, r) =>
        SentenceProper(l);
        SentenceProper(r);
        ProperOperator(Tokens(l), AndWord, Tokens(r));
      case COr(l, r) =>
        SentenceProper(l);
        SentenceProper(r);
        ProperOperator(Tokens(l), OrWord, Tokens(r));
    }
  }

  lemma ProperOne(t: Token)
    requires !IsWordToken(t)
    ensures !SomeMisplaced([t])
  {
  }

  lemma ProperConcat(a: seq<Token>, b: seq<Token>)
    requires !SomeMisplaced(a) && !SomeMisplaced(b)
    ensures !SomeMisplaced(a + b)
  {
    forall i
      ensures !Misplaced(a + b, i)
    {
      assert !Misplaced(a, i) && !Misplaced(b, i - |a|);
    }
  }

  lemma ProperOperator(a: seq<Token>, word: Token, b: seq<Token>)
    requires !SomeMisplaced(a) && !SomeMisplaced(b) && a != [] && IsWordToken(word)
    requires a[|a| - 1].Identifier? || a[|a| - 1].Closing?
    ensures !SomeMisplaced(a + [word] + b)
  {
    forall i
      ensures !Misplaced(a + [word] + b, i)
    {
      assert !Misplaced(a, i) && !Misplaced(b, i - |a| - 1);
    }
  }

  lemma MisplacedLeft(a: seq<Token>, b: seq<Token>)
    requires SomeMisplaced(a)
    ensures SomeMisplaced(a + b)
  {
    var i :| Misplaced(a, i);
    assert Misplaced(a + b, i);
  }

  /** Behind an operator or an opening parenthesis a misplaced operator stays misplaced. */
  lemma MisplacedRight(a: seq<Token>, b: seq<Token>)
    requires SomeMisplaced(b) && (a == [] || IsWordToken(a[|a| - 1]) || a[|a| - 1].Open?)
    ensures SomeMisplaced(a + b)
  {
    var i :| Misplaced(b, i);
    assert Misplaced(a + b, |a| + i);
  }

  // ---------------------------------------------------------------------------
  // The tokens of a printed tree with any words
  // ---------------------------------------------------------------------------

  /** Trees over any words without blanks and parentheses; WITH takes a license on its left. */
  predicate WordTree(t: Tree) {
    match t
    case Name(id) => AllWordChars(id)
    case With(b, x) => IsLicense(b) && WordTree(b) && AllWordChars(x)
    case Both(l, r) => WordTree(l) && WordTree(r)
    case Either(l, r) => WordTree(l) && WordTree(r)
  }

  /** A word is tokenized the same whatever follows it in printed text. */
  lemma {:induction false} WordTokens(id: string, s: string)
    requires id == "" || AllWordChars(id)
    requires Stops(s)
    ensures Tokenize(id + s) == Tokenize(id) + Tokenize(s)
    decreases |id|
  {
    hide Tokenize, MatchLength, Classify;
    if id == "" {
      EmptyText();
      assert id + s == s;
    } else {
      WordMatch(id, s);
      var n := MatchLength(id);
      var front, back := id[..n], id[n..];
      assert id == front + back && id + s == front + (back + s);
      TokenizeFirst(front, back);
      TokenizeFirst(front, back + s);
      WordTokens(back, s);
    }
  }

  lemma WordMatch(id: string, s: string)
    requires AllWordChars(id) && Stops(s)
    ensures !IsSpace(id[0]) && 0 < MatchLength(id) <= |id| && MatchLength(id + s) == MatchLength(id)
  {
    hide StartsWith;
    assert IsWordChar(id[0]);
    IdentifierLength(id, s);
    IdentifierLength(id, "");
    assert id + "" == id;
  }

  /** The tokens of the printed form. */
  function PrintedTokens(t: Tree): seq<Token>
    decreases t, 0
  {
    match t
    case Name(id) => Tokenize(id)
    case With(b, x) => PrintedTokens(b) + [WithWord] + Tokenize(x)
    case Both(l, r) => BracketTokens(l, l.Either?) + [AndWord] + BracketTokens(r, r.Either? || r.Both?)
    case Either(l, r) => BracketTokens(l, false) + [OrWord] + BracketTokens(r, r.Either?)
  }

  function BracketTokens(t: Tree, brackets: bool): seq<Token>
    decreases t, 1
  {
    if brackets then [Open] + PrintedTokens(t) + [Closing] else PrintedTokens(t)
  }

  lemma {:induction false} TreeTokens(t: Tree, s: string)
    requires WordTree(t) && Stops(s)
    ensures Tokenize(Print(t) + s) == PrintedTokens(t) + Tokenize(s)
    decreases t, 1
  {
    hide Tokenize, AllWordChars;
    match t {
      case Name(id) => WordTokens(id, s);
      case With(b, x) =>
        TreeTokens(b, " WITH " + (x + s));
        WordTokens(x, s);
        Compose(Print(b), PrintedTokens(b), " WITH ", WithWord, x, Tokenize(x), s);
      case Both(l, r) => BinaryTokens(t, l, l.Either?, " AND ", AndWord, r, r.Either? || r.Both?, s);
      case Either(l, r) => BinaryTokens(t, l, false, " OR ", OrWord, r, r.Either?, s);
    }
  }

  lemma {:induction false} BracketedTokens(t: Tree, brackets: bool, s: string)
    requires WordTree(t) && Stops(s)
    ensures Tokenize(Bracketed(t, brackets) + s) == BracketTokens(t, brackets) + Tokenize(s)
    decreases t, 2
  {
    hide Tokenize, Print, PrintedTokens, WordTree;
    if brackets {
      var inner := Print(t) + (")" + s);
      assert Bracketed(t, brackets) + s == "(" + inner;
      TokenizeParentheses(inner);
      TreeTokens(t, ")" + s);
      TokenizeParentheses(s);
    } else {
      TreeTokens(t, s);
    }
  }

  lemma {:induction false} BinaryTokens(t: Tree, l: Tree, lBrackets: bool, operator: string, token: Token, r: Tree, rBrackets: bool, s: string)
    requires WordTree(l) && WordTree(r) && Stops(s) && IsOperator(operator, token)
    requires (t.Both? || t.Either?) && l == t.left && r == t.right
    ensures Tokenize(Bracketed(l, lBrackets) + operator + Bracketed(r, rBrackets) + s)
         == BracketTokens(l, lBrackets) + [token] + BracketTokens(r, rBrackets) + Tokenize(s)
    decreases t, 0
  {
    hide Tokenize, Print, PrintedTokens, WordTree, Bracketed, BracketTokens;
    var right := Bracketed(r, rBrackets);
    BracketedTokens(l, lBrackets, operator + (right + s));
    BracketedTokens(r, rBrackets, s);
    Compose(Bracketed(l, lBrackets), BracketTokens(l, lBrackets), operator, token, right, BracketTokens(r, rBrackets), s);
  }

  /** A word that is no good identifier starts with an operator. */
  lemma BadWord(id: string)
    requires AllWordChars(id) && !GoodId(id)
    ensures SomeMisplaced(Tokenize(id))
  {
    hide MatchLength, Classify;
    assert IsWordChar(id[0]);
    assert SkipSpaces(id) == id;
    SplitClass(id);
    TokenizeSkipped(id, id);
    assert Misplaced(Tokenize(id), 0);
  }

  /** One bad word anywhere leaves a misplaced operator. */
  lemma {:induction false} BadTree(t: Tree)
    requires WordTree(t) && !ValidTree(t)
    ensures SomeMisplaced(PrintedTokens(t))
  {
    hide SomeMisplaced, Tokenize, GoodId, AllWordChars;
    match t {
      case Name(id) => BadWord(id);
      case With(b, x) =>
        if !ValidTree(b) {
          BadTree(b);
          MisplacedLeft(PrintedTokens(b), [WithWord] + Tokenize(x));
        } else {
          BadWord(x);
          MisplacedRight(PrintedTokens(b) + [WithWord], Tokenize(x));
        }
        assert PrintedTokens(b) + ([WithWord] + Tokenize(x)) == PrintedTokens(t);
      case Both(l, r) => BadOperand(t, l, l.Either?, AndWord, r, r.Either? || r.Both?);
      case Either(l, r) => BadOperand(t, l, false, OrWord, r, r.Either?);
    }
  }

  lemma {:induction false} BadOperand(t: Tree, l: Tree, lBrackets: bool, token: Token, r: Tree, rBrackets: bool)
    requires (t.Both? || t.Either?) && l == t.left && r == t.right && IsWordToken(token)
    requires WordTree(l) && WordTree(r) && !(ValidTree(l) && ValidTree(r))
    ensures SomeMisplaced(BracketTokens(l, lBrackets) + [token] + BracketTokens(r, rBrackets))
    decreases t, 0
  {
    hide SomeMisplaced, PrintedTokens, WordTree, ValidTree, BracketTokens;
    var a, b := BracketTokens(l, lBrackets), BracketTokens(r, rBrackets);
    if !ValidTree(l) {
      BadTree(l);
      BadBracketed(l, lBrackets);
      MisplacedLeft(a, [token] + b);
      assert a + ([token] + b) == a + [token] + b;
    } else {
      BadTree(r);
      BadBracketed(r, rBrackets);
      MisplacedRight(a + [token], b);
    }
  }

  lemma BadBracketed(t: Tree, brackets: bool)
    requires SomeMisplaced(PrintedTokens(t))
    ensures SomeMisplaced(BracketTokens(t, brackets))
  {
    hide SomeMisplaced, PrintedTokens;
    if brackets {
      MisplacedRight([Open], PrintedTokens(t));
      MisplacedLeft([Open] + PrintedTokens(t), [Closing]);
    }
  }

  lemma {:induction false} PrintedNonEmpty(t: Tree)
    requires WordTree(t)
    ensures PrintedTokens(t) != []
  {
    if t.Name? {
      WordNonEmpty(t.id);
    }
  }

  lemma WordNonEmpty(id: string)
    requires AllWordChars(id)
    ensures Tokenize(id) != []
  {
    hide MatchLength, Classify;
    assert IsWordChar(id[0]);
    assert SkipSpaces(id) == id;
    TokenizeSkipped(id, id);
  }

  /**
    A tree over words without blanks and parentheses is printed and parsed back as itself if
    and only if none of its words starts with an operator word, in any case, or is WITH in
    another spelling.
   */
  lemma PrintParseExactly(t: Tree)
    requires WordTree(t)
    ensures ParseTokens(Tokenize(Print(t))) == Ok(NodeOf(t)) <==> ValidTree(t)
    ensures !ValidTree(t) ==> ParseTokens(Tokenize(Print(t))).Err?
  {
    hide Tokenize, Print, ParseTokens, ValidTree, WordTree, SomeMisplaced, Tokens, IsOr, Ast, PrintedTokens, NodeOf;
    if ValidTree(t) {
      PrintParse(t);
    } else {
      TreeTokens(t, "");
      EmptyText();
      assert Print(t) + "" == Print(t) && PrintedTokens(t) + [] == PrintedTokens(t);
      BadTree(t);
      PrintedNonEmpty(t);
      var ts := Tokenize(Print(t));
      if ParseTokens(ts).Ok? {
        ParsesExactly(ts, ParseTokens(ts).value);
        var c :| IsOr(c) && Tokens(c) == ts && Ast(c) == ParseTokens(ts).value;
        SentenceProper(c);
      }
    }
  }
}
