/**
  What the license parser accepts and what it makes of it. Expressions form a grammar
  with AND binding tighter than OR and WITH tighter than AND; the parser accepts exactly
  its sentences, reads each of them as its one derivation says, and reads a printed tree
  back as that tree exactly when its words survive the tokenizer.
 */
module LicenseGrammar {
  import opened Wrappers
  import opened License

  /** Derivations: an expression as written, with its parentheses. */
  datatype Cst =
    | CName(id: string)
    | CParen(inner: Cst)
    | CWith(base: Cst, exception: string)
    | CAnd(left: Cst, right: Cst)
    | COr(left: Cst, right: Cst)

  function Ast(c: Cst): Node {
    match c
    case CName(id) => License(id)
    case CParen(inner) => Ast(inner)
    case CWith(base, x) => if Ast(base).License? then License(Ast(base).id + " WITH " + x) else Ast(base)
    case CAnd(l, r) => And(Ast(l), Ast(r))
    case COr(l, r) => Or(Ast(l), Ast(r))
  }

  function Tokens(c: Cst): (ts: seq<Token>)
    ensures ts != []
  {
    match c
    case CName(id) => [Identifier(id)]
    case CParen(inner) => [Open] + Tokens(inner) + [Closing]
    case CWith(base, x) => Tokens(base) + [WithWord, Identifier(x)]
    case CAnd(l, r) => Tokens(l) + [AndWord] + Tokens(r)
    case COr(l, r) => Tokens(l) + [OrWord] + Tokens(r)
  }

  /** The grammar's levels; every operator takes its own level on the left, the next one on the right. */
  predicate IsPrimary(c: Cst)
    decreases c, 0
  {
    match c
    case CName(_) => true
    case CParen(inner) => IsOr(inner)
    case _ => false
  }

  predicate IsWith(c: Cst)
    decreases c, 1
  {
    match c
    case CWith(base, _) => IsWith(base) && Ast(base).License?
    case _ => IsPrimary(c)
  }

  predicate IsAnd(c: Cst)
    decreases c, 2
  {
    match c
    case CAnd(l, r) => IsAnd(l) && IsWith(r)
    case _ => IsWith(c)
  }

  predicate IsOr(c: Cst)
    decreases c, 3
  {
    match c
    case COr(l, r) => IsOr(l) && IsAnd(r)
    case _ => IsAnd(c)
  }

  /** Each level contains the ones that bind tighter. */
  lemma Levels(c: Cst)
    ensures IsPrimary(c) ==> IsWith(c)
    ensures IsWith(c) ==> IsAnd(c)
    ensures IsAnd(c) ==> IsOr(c)
  {
    match c {
      case COr(_, _) => assert !IsPrimary(c); assert !IsWith(c); assert !IsAnd(c);
      case CAnd(_, _) => assert !IsPrimary(c); assert !IsWith(c);
      case CWith(_, _) => assert !IsPrimary(c);
      case _ => assert IsWith(c) == IsPrimary(c); assert IsAnd(c) == IsWith(c);
    }
  }

  // ---------------------------------------------------------------------------
  // Every sentence is accepted, with its own tree
  // ---------------------------------------------------------------------------

  lemma {:induction false} ReadPrimary(c: Cst, rest: seq<Token>)
    requires IsPrimary(c)
    ensures ParsePrimary(Tokens(c) + rest) == Parsed(Ast(c), rest)
    decreases c, 0
  {
    hide ParseOr;
    if c.CParen? {
      var ts := Tokens(c) + rest;
      assert ts[1..] == Tokens(c.inner) + ([Closing] + rest);
      ReadOr(c.inner, [Closing] + rest);
    }
  }

  lemma {:induction false} ReadWith(c: Cst, rest: seq<Token>)
    requires IsWith(c)
    ensures ParseWith(Tokens(c) + rest) == WithTail(Ast(c), rest)
    decreases c, 1
  {
    hide ParsePrimary;
    if c.CWith? {
      var more := [WithWord, Identifier(c.exception)] + rest;
      assert Tokens(c) + rest == Tokens(c.base) + more;
      ReadWith(c.base, more);
      assert more[2..] == rest;
    } else {
      ReadPrimary(c, rest);
    }
  }

  lemma {:induction false} ReadAnd(c: Cst, rest: seq<Token>)
    requires IsAnd(c) && !Next(rest, WithWord)
    ensures ParseAnd(Tokens(c) + rest) == AndTail(Ast(c), rest)
    decreases c, 2
  {
    hide ParseWith, Tokens;
    if c.CAnd? {
      var more := [AndWord] + (Tokens(c.right) + rest);
      assert Tokens(c) + rest == Tokens(c.left) + more by { TokensOf(c); }
      ReadAnd(c.left, more);
      assert more[1..] == Tokens(c.right) + rest;
      ReadWith(c.right, rest);
    } else {
      ReadWith(c, rest);
    }
  }

  lemma TokensOf(c: Cst)
    ensures c.CAnd? ==> Tokens(c) == Tokens(c.left) + [AndWord] + Tokens(c.right)
    ensures c.COr? ==> Tokens(c) == Tokens(c.left) + [OrWord] + Tokens(c.right)
  {
  }

  lemma {:induction false} ReadOr(c: Cst, rest: seq<Token>)
    requires IsOr(c) && !Next(rest, WithWord) && !Next(rest, AndWord)
    ensures ParseOr(Tokens(c) + rest) == OrTail(Ast(c), rest)
    decreases c, 3
  {
    hide ParseAnd, Tokens;
    if c.COr? {
      var more := [OrWord] + (Tokens(c.right) + rest);
      assert Tokens(c) + rest == Tokens(c.left) + more by { TokensOf(c); }
      ReadOr(c.left, more);
      assert more[1..] == Tokens(c.right) + rest;
      ReadAnd(c.right, rest);
    } else {
      ReadAnd(c, rest);
    }
  }

  // ---------------------------------------------------------------------------
  // Whatever is accepted is a sentence
  // ---------------------------------------------------------------------------

  lemma {:induction false} PrimarySentence(ts: seq<Token>) returns (c: Cst)
    requires ParsePrimary(ts).Parsed?
    ensures IsPrimary(c) && Ast(c) == ParsePrimary(ts).node && ts == Tokens(c) + ParsePrimary(ts).rest
    decreases |ts|, 0
  {
    hide ParseOr;
    if ts[0] == Open {
      var inner := OrSentence(ts[1..]);
      c := CParen(inner);
      var r := ParseOr(ts[1..]).rest;
      assert ts == [Open] + ts[1..] && r == [Closing] + r[1..];
    } else {
      c := CName(ts[0].value);
    }
  }

  lemma {:induction false} WithTailSentence(c0: Cst, ts: seq<Token>) returns (c: Cst)
    requires IsWith(c0) && WithTail(Ast(c0), ts).Parsed?
    ensures var r := WithTail(Ast(c0), ts);
            && IsWith(c) && Ast(c) == r.node && Tokens(c0) + ts == Tokens(c) + r.rest
            && !Next(r.rest, WithWord)
    decreases |ts|
  {
    if Next(ts, WithWord) {
      var c1 := CWith(c0, ts[1].value);
      assert ts == [WithWord, Identifier(ts[1].value)] + ts[2..];
      c := WithTailSentence(c1, ts[2..]);
      assert Tokens(c0) + ts == Tokens(c1) + ts[2..];
    } else {
      c := c0;
    }
  }

  lemma {:induction false} WithSentence(ts: seq<Token>) returns (c: Cst)
    requires ParseWith(ts).Parsed?
    ensures IsWith(c) && Ast(c) == ParseWith(ts).node && ts == Tokens(c) + ParseWith(ts).rest
    decreases |ts|, 1
  {
    hide ParsePrimary;
    var c0 := PrimarySentence(ts);
    Levels(c0);
    c := WithTailSentence(c0, ParsePrimary(ts).rest);
  }

  lemma {:induction false} AndTailSentence(c0: Cst, ts: seq<Token>) returns (c: Cst)
    requires IsAnd(c0) && AndTail(Ast(c0), ts).Parsed?
    ensures var r := AndTail(Ast(c0), ts);
            IsAnd(c) && Ast(c) == r.node && Tokens(c0) + ts == Tokens(c) + r.rest
    decreases |ts|, 2
  {
    hide ParseWith, Tokens;
    if Next(ts, AndWord) {
      var right := WithSentence(ts[1..]);
      var c1 := CAnd(c0, right);
      c := AndTailSentence(c1, ParseWith(ts[1..]).rest);
      TokensOf(c1);
      assert ts == [AndWord] + ts[1..];
      assert Tokens(c0) + ts == Tokens(c1) + ParseWith(ts[1..]).rest;
    } else {
      c := c0;
    }
  }

  lemma {:induction false} AndSentence(ts: seq<Token>) returns (c: Cst)
    requires ParseAnd(ts).Parsed?
    ensures IsAnd(c) && Ast(c) == ParseAnd(ts).node && ts == Tokens(c) + ParseAnd(ts).rest
    decreases |ts|, 3
  {
    hide ParseWith;
    var c0 := WithSentence(ts);
    Levels(c0);
    c := AndTailSentence(c0, ParseWith(ts).rest);
  }

  lemma {:induction false} OrTailSentence(c0: Cst, ts: seq<Token>) returns (c: Cst)
    requires IsOr(c0) && OrTail(Ast(c0), ts).Parsed?
    ensures var r := OrTail(Ast(c0), ts);
            IsOr(c) && Ast(c) == r.node && Tokens(c0) + ts == Tokens(c) + r.rest
    decreases |ts|, 4
  {
    hide ParseAnd, Tokens;
    if Next(ts, OrWord) {
      var right := AndSentence(ts[1..]);
      var c1 := COr(c0, right);
      c := OrTailSentence(c1, ParseAnd(ts[1..]).rest);
      TokensOf(c1);
      assert ts == [OrWord] + ts[1..];
      assert Tokens(c0) + ts == Tokens(c1) + ParseAnd(ts[1..]).rest;
    } else {
      c := c0;
    }
  }

  lemma {:induction false} OrSentence(ts: seq<Token>) returns (c: Cst)
    requires ParseOr(ts).Parsed?
    ensures IsOr(c) && Ast(c) == ParseOr(ts).node && ts == Tokens(c) + ParseOr(ts).rest
    decreases |ts|, 5
  {
    hide ParseAnd;
    var c0 := AndSentence(ts);
    Levels(c0);
    c := OrTailSentence(c0, ParseAnd(ts).rest);
  }

  /**
    A non-empty token list parses to a tree exactly when some derivation of the grammar
    spells it and has that tree.
   */
  lemma ParsesExactly(ts: seq<Token>, node: Node)
    requires ts != []
    ensures ParseTokens(ts) == Ok(node) <==> exists c :: IsOr(c) && Tokens(c) == ts && Ast(c) == node
  {
    hide ParseOr, IsOr, Tokens, Ast;
    if ParseTokens(ts) == Ok(node) {
      var c := OrSentence(ts);
      assert Tokens(c) + [] == Tokens(c);
    }
    if c :| IsOr(c) && Tokens(c) == ts && Ast(c) == node {
      assert Tokens(c) + [] == ts;
      ReadOr(c, []);
    }
  }

  // ---------------------------------------------------------------------------
  // Printing and reading back
  // ---------------------------------------------------------------------------

  /** A license with its exceptions, or an operator over two trees. */
  datatype Tree =
    | Name(id: string)
    | With(base: Tree, exception: string)
    | Both(left: Tree, right: Tree)
    | Either(left: Tree, right: Tree)

  /** WITH takes a license on its left. */
  predicate IsLicense(t: Tree) {
    t.Name? || (t.With? && IsLicense(t.base))
  }

  predicate ValidTree(t: Tree) {
    match t
    case Name(id) => GoodId(id)
    case With(b, x) => IsLicense(b) && ValidTree(b) && GoodId(x)
    case Both(l, r) => ValidTree(l) && ValidTree(r)
    case Either(l, r) => ValidTree(l) && ValidTree(r)
  }

  function NodeOf(t: Tree): Node {
    match t
    case Name(id) => License(id)
    case With(b, x) => if NodeOf(b).License? then License(NodeOf(b).id + " WITH " + x) else NodeOf(b)
    case Both(l, r) => And(NodeOf(l), NodeOf(r))
    case Either(l, r) => Or(NodeOf(l), NodeOf(r))
  }

  function Parenthesized(s: string): string {
    "(" + s + ")"
  }

  /** The tree as text, with parentheses only where the grammar needs them. */
  function Print(t: Tree): string {
    match t
    case Name(id) => id
    case With(b, x) => Print(b) + " WITH " + x
    case Both(l, r) =>
      (if l.Either? then Parenthesized(Print(l)) else Print(l)) + " AND "
      + (if r.Either? || r.Both? then Parenthesized(Print(r)) else Print(r))
    case Either(l, r) =>
      Print(l) + " OR " + (if r.Either? then Parenthesized(Print(r)) else Print(r))
  }

  /** The derivation that Print writes down. */
  function Derivation(t: Tree): Cst {
    match t
    case Name(id) => CName(id)
    case With(b, x) => CWith(Derivation(b), x)
    case Both(l, r) =>
      CAnd(if l.Either? then CParen(Derivation(l)) else Derivation(l),
           if r.Either? || r.Both? then CParen(Derivation(r)) else Derivation(r))
    case Either(l, r) =>
      COr(Derivation(l), if r.Either? then CParen(Derivation(r)) else Derivation(r))
  }

  /** An identifier the tokenizer keeps whole and takes for an identifier. */
  predicate GoodId(id: string) {
    && id != "" && (forall i :: 0 <= i < |id| ==> IsWordChar(id[i]))
    && !StartsWith(id, "AND") && !StartsWith(id, "OR") && !StartsWith(id, "WITH")
    && Upper(id) != "WITH"
  }

  lemma {:induction false} DerivationLevel(t: Tree)
    requires ValidTree(t)
    ensures var c := Derivation(t);
            && IsOr(c) && Ast(c) == NodeOf(t)
            && (!t.Either? ==> IsAnd(c))
            && (!t.Either? && !t.Both? ==> IsWith(c))
            && (IsLicense(t) ==> NodeOf(t).License?)
  {
    match t {
      case Name(id) =>
        assert IsPrimary(Derivation(t));
        Levels(Derivation(t));
      case With(b, x) =>
        DerivationLevel(b);
        Levels(Derivation(t));
      case Both(l, r) =>
        DerivationLevel(l);
        DerivationLevel(r);
        BracketLevel(Derivation(l));
        BracketLevel(Derivation(r));
        Levels(Derivation(t));
      case Either(l, r) =>
        DerivationLevel(l);
        DerivationLevel(r);
        BracketLevel(Derivation(r));
    }
  }

  lemma BracketLevel(c: Cst)
    requires IsOr(c)
    ensures IsWith(CParen(c)) && IsAnd(CParen(c)) && Ast(CParen(c)) == Ast(c)
  {
    assert IsPrimary(CParen(c));
    Levels(CParen(c));
  }

  // ---------------------------------------------------------------------------
  // The printed text, tokenized
  // ---------------------------------------------------------------------------

  /** What may follow an identifier in printed text. */
  predicate Stops(s: string) {
    s == "" || s[0] == ' ' || s[0] == ')'
  }

  lemma TokenizeSpace(s: string)
    ensures Tokenize(" " + s) == Tokenize(s)
  {
    hide MatchLength, Classify;
    assert (" " + s)[1..] == s;
    TokenizeSkipped(" " + s, SkipSpaces(s));
    SkipTwice(s);
    TokenizeSkipped(s, SkipSpaces(s));
  }

  lemma SkipTwice(s: string)
    ensures SkipSpaces(SkipSpaces(s)) == SkipSpaces(s)
  {
    if SkipSpaces(s) != "" {
      assert !IsSpace(SkipSpaces(s)[0]);
    }
  }

  /** The first token when its length is known. */
  lemma TokenizeFirst(value: string, s: string)
    requires value != "" && !IsSpace(value[0]) && MatchLength(value + s) == |value|
    ensures Tokenize(value + s) == [Classify(value)] + Tokenize(s)
  {
    hide MatchLength, Classify;
    var all := value + s;
    assert SkipSpaces(all) == all;
    assert all[..|value|] == value && all[|value|..] == s;
    TokenizeSkipped(all, all);
  }

  lemma TokenizeParentheses(s: string)
    ensures Tokenize("(" + s) == [Open] + Tokenize(s)
    ensures Tokenize(")" + s) == [Closing] + Tokenize(s)
  {
    assert |Upper("(")| == 1 && |Upper(")")| == 1;
    TokenizeFirst("(", s);
    TokenizeFirst(")", s);
  }

  predicate IsOperator(word: string, token: Token) {
    || (word == " AND " && token == AndWord)
    || (word == " OR " && token == OrWord)
    || (word == " WITH " && token == WithWord)
  }

  lemma TokenizeOperator(word: string, token: Token, s: string)
    requires IsOperator(word, token)
    ensures Tokenize(word + s) == [token] + Tokenize(s)
  {
    hide Tokenize;
    var bare := if token == AndWord then "AND" else if token == OrWord then "OR" else "WITH";
    assert word + s == " " + (bare + (" " + s));
    TokenizeSpace(bare + (" " + s));
    OperatorWord(bare, token);
    OperatorLength(bare, " " + s);
    TokenizeFirst(bare, " " + s);
    TokenizeSpace(s);
  }

  lemma OperatorWord(bare: string, token: Token)
    requires (bare == "AND" && token == AndWord) || (bare == "OR" && token == OrWord) || (bare == "WITH" && token == WithWord)
    ensures bare != "" && !IsSpace(bare[0]) && Classify(bare) == token
  {
    assert Upper(bare) == bare;
  }

  lemma OperatorLength(word: string, s: string)
    requires word == "AND" || word == "OR" || word == "WITH"
    ensures MatchLength(word + s) == |word|
  {
    var rest := word + s;
    assert rest[0] == word[0] && rest[1] == word[1];
    assert StartsWith(rest, word);
  }

  lemma IdentifierLength(id: string, s: string)
    requires id != "" && forall i :: 0 <= i < |id| ==> IsWordChar(id[i])
    requires Stops(s)
    ensures forall word | word in {"AND", "OR", "WITH"} :: StartsWith(id + s, word) == StartsWith(id, word)
    ensures WordLength(id + s) == |id|
  {
    var all := id + s;
    var n := WordLength(all);
    assert forall i :: 0 <= i < |id| ==> IsWordChar(all[i]);
    assert s != "" ==> !IsWordChar(all[|id|]) && AsciiUpper(all[|id|]) == s[0];
    forall word | word in {"AND", "OR", "WITH"}
      ensures StartsWith(all, word) == StartsWith(id, word)
    {
      if StartsWith(all, word) && |id| < |word| {
        assert false;
      }
    }
  }

  lemma TokenizeIdentifier(id: string, s: string)
    requires GoodId(id) && Stops(s)
    ensures Tokenize(id + s) == [Identifier(id)] + Tokenize(s)
  {
    hide Tokenize, StartsWith;
    IdentifierLength(id, s);
    assert IsWordChar(id[0]);
    GoodIdClass(id);
    TokenizeFirst(id, s);
  }

  lemma GoodIdClass(id: string)
    requires GoodId(id)
    ensures Classify(id) == Identifier(id)
  {
    assert IsWordChar(id[0]);
    var upper := Upper(id);
    if upper == "AND" || upper == "OR" {
      UpperStarts(id, upper);
    }
  }

  lemma UpperStarts(id: string, word: string)
    requires Upper(id) == word && (word == "AND" || word == "OR")
    ensures StartsWith(id, word)
  {
    forall i | 0 <= i < |word|
      ensures AsciiUpper(id[i]) == word[i]
    {
      assert Upper(id)[i] == word[i];
    }
  }

  /** Printed text, followed by anything that may follow it, tokenizes to the derivation's tokens. */
  lemma {:induction false} PrintTokens(t: Tree, s: string)
    requires ValidTree(t) && Stops(s)
    ensures Tokenize(Print(t) + s) == Tokens(Derivation(t)) + Tokenize(s)
    decreases t, 1
  {
    hide Tokenize, GoodId;
    match t {
      case Name(id) => TokenizeIdentifier(id, s);
      case With(b, x) =>
        PrintTokens(b, " WITH " + (x + s));
        TokenizeIdentifier(x, s);
        Compose(Print(b), Tokens(Derivation(b)), " WITH ", WithWord, x, [Identifier(x)], s);
        assert Tokens(Derivation(t)) == Tokens(Derivation(b)) + [WithWord] + [Identifier(x)];
      case Both(l, r) =>
        PrintBinary(t, l, l.Either?, " AND ", AndWord, r, r.Either? || r.Both?, s);
      case Either(l, r) =>
        PrintBinary(t, l, false, " OR ", OrWord, r, r.Either?, s);
    }
  }

  /** Text tokenized piece by piece. */
  lemma Compose(left: string, lts: seq<Token>, operator: string, token: Token, right: string, rts: seq<Token>, s: string)
    requires IsOperator(operator, token)
    requires Tokenize(left + (operator + (right + s))) == lts + Tokenize(operator + (right + s))
    requires Tokenize(right + s) == rts + Tokenize(s)
    ensures Tokenize(left + operator + right + s) == lts + [token] + rts + Tokenize(s)
  {
    hide Tokenize, IsOperator;
    TokenizeOperator(operator, token, right + s);
    assert left + operator + right + s == left + (operator + (right + s));
  }

  function Bracketed(t: Tree, brackets: bool): string {
    if brackets then Parenthesized(Print(t)) else Print(t)
  }

  function BracketedDerivation(t: Tree, brackets: bool): Cst {
    if brackets then CParen(Derivation(t)) else Derivation(t)
  }

  lemma {:induction false} PrintBracketed(t: Tree, brackets: bool, s: string)
    requires ValidTree(t) && Stops(s)
    ensures Tokenize(Bracketed(t, brackets) + s) == Tokens(BracketedDerivation(t, brackets)) + Tokenize(s)
    decreases t, 2
  {
    hide Tokenize, Print, Derivation, ValidTree;
    if brackets {
      var inner := Print(t) + (")" + s);
      assert Bracketed(t, brackets) + s == "(" + inner;
      TokenizeParentheses(inner);
      PrintTokens(t, ")" + s);
      TokenizeParentheses(s);
    } else {
      PrintTokens(t, s);
    }
  }

  lemma {:induction false} PrintBinary(t: Tree, l: Tree, lBrackets: bool, operator: string, token: Token, r: Tree, rBrackets: bool, s: string)
    requires ValidTree(l) && ValidTree(r) && Stops(s) && IsOperator(operator, token)
    requires (t.Both? || t.Either?) && l == t.left && r == t.right
    ensures Tokenize(Bracketed(l, lBrackets) + operator + Bracketed(r, rBrackets) + s)
         == Tokens(BracketedDerivation(l, lBrackets)) + [token] + Tokens(BracketedDerivation(r, rBrackets)) + Tokenize(s)
    decreases t, 0
  {
    hide Tokenize, Print, Derivation, ValidTree, Bracketed, BracketedDerivation, Tokens;
    var right := Bracketed(r, rBrackets);
    PrintBracketed(l, lBrackets, operator + (right + s));
    PrintBracketed(r, rBrackets, s);
    Compose(Bracketed(l, lBrackets), Tokens(BracketedDerivation(l, lBrackets)), operator, token,
            right, Tokens(BracketedDerivation(r, rBrackets)), s);
  }

  /** Parsing the printed form of a tree gives that tree. */
  lemma PrintParse(t: Tree)
    requires ValidTree(t)
    ensures ParseTokens(Tokenize(Print(t))) == Ok(NodeOf(t))
  {
    hide Tokenize, Print, Derivation, Tokens, ParseOr, IsOr, Ast;
    PrintTokens(t, "");
    EmptyText();
    assert Print(t) + "" == Print(t);
    var c := Derivation(t);
    assert Tokens(c) + [] == Tokens(c);
    DerivationLevel(t);
    ParsesExactly(Tokens(c), NodeOf(t));
  }

  lemma EmptyText()
    ensures Tokenize("") == []
  {
  }

  predicate AllWordChars(id: string) {
    id != "" && forall i :: 0 <= i < |id| ==> IsWordChar(id[i])
  }

  /**
    The condition on identifiers is exact: a word without blanks and parentheses parses to
    itself just when no operator word starts it and it is not WITH in another spelling.
   */
  lemma IdentifierExactly(id: string)
    requires AllWordChars(id)
    ensures ParseTokens(Tokenize(id)) == Ok(License(id)) <==> GoodId(id)
  {
    hide Tokenize, ParseTokens, GoodId;
    if GoodId(id) {
      assert ValidTree(Name(id));
      PrintParse(Name(id));
    } else {
      SplitIdentifier(id);
    }
  }

  lemma SplitIdentifier(id: string)
    requires AllWordChars(id) && !GoodId(id)
    ensures ParseTokens(Tokenize(id)).Err?
  {
    assert IsWordChar(id[0]);
    assert SkipSpaces(id) == id;
    SplitClass(id);
    TokenizeSkipped(id, id);
    OperatorFirst(Tokenize(id));
  }

  lemma SplitClass(id: string)
    requires AllWordChars(id) && !GoodId(id)
    ensures !IsSpace(id[0]) && Classify(id[..MatchLength(id)]) in {AndWord, OrWord, WithWord}
  {
    assert IsWordChar(id[0]);
    IdentifierLength(id, "");
    assert id + "" == id && id[..|id|] == id;
    var n := MatchLength(id);
    if StartsWith(id, "AND") {
      assert Upper(id[..n]) == "AND";
    } else if StartsWith(id, "OR") {
      assert Upper(id[..n]) == "OR";
    } else if StartsWith(id, "WITH") {
      assert Upper(id[..n]) == "WITH";
    }
  }

  lemma OperatorFirst(ts: seq<Token>)
    requires ts != [] && ts[0] in {AndWord, OrWord, WithWord}
    ensures ParseTokens(ts).Err?
  {
    assert ParsePrimary(ts).Failed?;
    assert ParseWith(ts).Failed?;
    assert ParseAnd(ts).Failed?;
  }
}
