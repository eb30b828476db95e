/**
  The license expressions of scripts/release-report.ts: tokenizer and recursive descent
  parser. The loops and the moving position are in class ExpressionParser; the functions
  here say what they compute, and module LicenseGrammar what that means.
 */
module License {
  import opened Wrappers

  datatype Token = Identifier(value: string) | AndWord | OrWord | WithWord | Open | Closing

  datatype Node =
    | License(id: string)
    | And(left: Node, right: Node)
    | Or(left: Node, right: Node)

  datatype Error = UnexpectedEnd | UnexpectedToken | MissingParenthesis | InvalidWith | TrailingTokens

  // ---------------------------------------------------------------------------
  // Characters
  // ---------------------------------------------------------------------------

  /** The regular expression class \s. */
  predicate IsSpace(c: char) {
    || '\t' <= c <= '\r' || c == ' ' || c == '\U{A0}' || c == '\U{1680}' || '\U{2000}' <= c <= '\U{200A}'
    || c == '\U{2028}' || c == '\U{2029}' || c == '\U{202F}' || c == '\U{205F}' || c == '\U{3000}' || c == '\U{FEFF}'
  }

  predicate IsWordChar(c: char) {
    !IsSpace(c) && c != '(' && c != ')'
  }

  function AsciiUpper(c: char): char {
    if 'a' <= c <= 'z' then ((c as int) - 32) as char else c
  }

  /**
    String.prototype.toUpperCase as far as the operator words are concerned: besides the
    ASCII letters only the dotless i has an upper case among their letters.
   */
  function Upper(s: string): string {
    seq(|s|, i requires 0 <= i < |s| => if s[i] == '\U{131}' then 'I' else AsciiUpper(s[i]))
  }

  /** s starts with the operator word, in any mix of cases. */
  predicate StartsWith(s: string, word: string) {
    |word| <= |s| && forall i :: 0 <= i < |word| ==> AsciiUpper(s[i]) == word[i]
  }

  // ---------------------------------------------------------------------------
  // Tokenizing
  // ---------------------------------------------------------------------------

  function SkipSpaces(s: string): (r: string)
    ensures |r| <= |s| && (r != "" ==> !IsSpace(r[0]))
  {
    if s != "" && IsSpace(s[0]) then SkipSpaces(s[1..]) else s
  }

  function WordLength(s: string): (n: nat)
    ensures n <= |s|
    ensures forall i :: 0 <= i < n ==> IsWordChar(s[i])
    ensures n < |s| ==> !IsWordChar(s[n])
  {
    if s != "" && IsWordChar(s[0]) then 1 + WordLength(s[1..]) else 0
  }

  /** How many characters the pattern's group takes, tried in the order of its alternatives. */
  function MatchLength(s: string): (n: nat)
    requires s != "" && !IsSpace(s[0])
    ensures 0 < n <= |s|
  {
    if s[0] == '(' || s[0] == ')' then 1
    else if StartsWith(s, "AND") then 3
    else if StartsWith(s, "OR") then 2
    else if StartsWith(s, "WITH") then 4
    else WordLength(s)
  }

  function Classify(value: string): Token {
    var upper := Upper(value);
    if upper == "AND" then AndWord
    else if upper == "OR" then OrWord
    else if upper == "WITH" then WithWord
    else if value == "(" then Open
    else if value == ")" then Closing
    else Identifier(value)
  }

  function Tokenize(s: string): seq<Token>
    decreases |s|
  {
    var rest := SkipSpaces(s);
    if rest == "" then []
    else [Classify(rest[..MatchLength(rest)])] + Tokenize(rest[MatchLength(rest)..])
  }

  method TokenizeLicenseExpression(expression: string) returns (tokens: seq<Token>)
    ensures tokens == Tokenize(expression)
  {
    hide *;
    tokens := [];
    var lastIndex := 0;
    assert expression[0..] == expression;
    while true
      invariant 0 <= lastIndex <= |expression|
      invariant tokens + Tokenize(expression[lastIndex..]) == Tokenize(expression)
      decreases |expression| - lastIndex
    {
      var start := lastIndex;
      while start < |expression| && IsSpace(expression[start])
        invariant lastIndex <= start <= |expression|
        invariant SkipSpaces(expression[start..]) == SkipSpaces(expression[lastIndex..])
      {
        SkipOne(expression, start);
        start := start + 1;
      }
      var rest := expression[start..];
      TokenizeSkipped(expression[lastIndex..], rest);
      if rest == "" {
        assert tokens + [] == tokens;
        return;
      }
      var value := rest[..MatchLength(rest)];
      assert rest[|value|..] == expression[start + |value|..];
      assert tokens + ([Classify(value)] + Tokenize(rest[|value|..])) == tokens + [Classify(value)] + Tokenize(rest[|value|..]);
      tokens := tokens + [Classify(value)];
      lastIndex := start + |value|;
    }
  }

  lemma SkipOne(s: string, i: nat)
    requires i < |s| && IsSpace(s[i])
    ensures SkipSpaces(s[i..]) == SkipSpaces(s[i + 1..])
  {
    assert s[i..][1..] == s[i + 1..];
  }

  lemma TokenizeSkipped(s: string, rest: string)
    requires SkipSpaces(s) == SkipSpaces(rest) && (rest != "" ==> !IsSpace(rest[0]))
    ensures Tokenize(s) == if rest == "" then [] else [Classify(rest[..MatchLength(rest)])] + Tokenize(rest[MatchLength(rest)..])
  {
  }

  // ---------------------------------------------------------------------------
  // Parsing, on the tokens that remain
  // ---------------------------------------------------------------------------

  datatype Parse = Parsed(node: Node, rest: seq<Token>) | Failed(error: Error)

  predicate Next(ts: seq<Token>, t: Token) {
    ts != [] && ts[0] == t
  }

  function ParsePrimary(ts: seq<Token>): (r: Parse)
    ensures r.Parsed? ==> |r.rest| < |ts|
    decreases |ts|, 0
  {
    if ts == [] then Failed(UnexpectedEnd)
    else if ts[0] == Open then
      var inner := ParseOr(ts[1..]);
      if inner.Failed? then inner
      else if inner.rest == [] then Failed(UnexpectedEnd)
      else if inner.rest[0] != Closing then Failed(MissingParenthesis)
      else Parsed(inner.node, inner.rest[1..])
    else if !ts[0].Identifier? then Failed(UnexpectedToken)
    else Parsed(License(ts[0].value), ts[1..])
  }

  function WithTail(node: Node, ts: seq<Token>): (r: Parse)
    ensures r.Parsed? ==> |r.rest| <= |ts|
    decreases |ts|
  {
    if !Next(ts, WithWord) then Parsed(node, ts)
    else if |ts| < 2 then Failed(UnexpectedEnd)
    else if !ts[1].Identifier? || !node.License? then Failed(InvalidWith)
    else WithTail(License(node.id + " WITH " + ts[1].value), ts[2..])
  }

  function ParseWith(ts: seq<Token>): (r: Parse)
    ensures r.Parsed? ==> |r.rest| < |ts|
    decreases |ts|, 1
  {
    var first := ParsePrimary(ts);
    if first.Failed? then first else WithTail(first.node, first.rest)
  }

  function AndTail(node: Node, ts: seq<Token>): (r: Parse)
    ensures r.Parsed? ==> |r.rest| <= |ts|
    decreases |ts|, 2
  {
    if !Next(ts, AndWord) then Parsed(node, ts)
    else
      var right := ParseWith(ts[1..]);
      if right.Failed? then right else AndTail(And(node, right.node), right.rest)
  }

  function ParseAnd(ts: seq<Token>): (r: Parse)
    ensures r.Parsed? ==> |r.rest| < |ts|
    decreases |ts|, 3
  {
    var first := ParseWith(ts);
    if first.Failed? then first else AndTail(first.node, first.rest)
  }

  function OrTail(node: Node, ts: seq<Token>): (r: Parse)
    ensures r.Parsed? ==> |r.rest| <= |ts|
    decreases |ts|, 4
  {
    if !Next(ts, OrWord) then Parsed(node, ts)
    else
      var right := ParseAnd(ts[1..]);
      if right.Failed? then right else OrTail(Or(node, right.node), right.rest)
  }

  function ParseOr(ts: seq<Token>): (r: Parse)
    ensures r.Parsed? ==> |r.rest| < |ts|
    decreases |ts|, 5
  {
    var first := ParseAnd(ts);
    if first.Failed? then first else OrTail(first.node, first.rest)
  }

  const UNKNOWN_LICENSE: string := "UNKNOWN"

  function ParseTokens(ts: seq<Token>): Result<Node, Error> {
    if ts == [] then Ok(License(UNKNOWN_LICENSE))
    else
      var r := ParseOr(ts);
      if r.Failed? then Err(r.error) else if r.rest != [] then Err(TrailingTokens) else Ok(r.node)
  }

  /** The parser of the source: one position moving over the tokens. */
  class ExpressionParser {
    const tokens: seq<Token>
    var position: nat

    ghost predicate Valid()
      reads this
    {
      position <= |tokens|
    }

    constructor (tokens: seq<Token>)
      ensures Valid() && this.tokens == tokens && position == 0
    {
      this.tokens := tokens;
      position := 0;
    }

    /** The result a method returns, and the position it leaves, are those of the parse r. */
    ghost predicate Agrees(r: Result<Node, Error>, parse: Parse)
      reads this
    {
      && Valid()
      && r == (if parse.Failed? then Err(parse.error) else Ok(parse.node))
      && (parse.Parsed? ==> tokens[position..] == parse.rest)
    }

    method Consume() returns (r: Option<Token>)
      requires Valid()
      modifies this
      ensures Valid()
      ensures old(position) == |tokens| ==> r == None && position == old(position)
      ensures old(position) < |tokens| ==> r == Some(tokens[old(position)]) && position == old(position) + 1
    {
      if position == |tokens| {
        return None;
      }
      r := Some(tokens[position]);
      position := position + 1;
    }

    method ParsePrimaryNode() returns (r: Result<Node, Error>)
      requires Valid()
      modifies this
      ensures Agrees(r, ParsePrimary(old(tokens[position..])))
      ensures r.Ok? ==> position > old(position)
      decreases |tokens| - position, 0
    {
      ghost var ts := tokens[position..];
      var token := Consume();
      if token.None? {
        return Err(UnexpectedEnd);
      }
      assert ts[0] == token.value && ts[1..] == tokens[position..];
      if token.value == Open {
        var node := ParseOrNode();
        if node.Err? { return node; }
        ghost var rest := tokens[position..];
        var closing := Consume();
        if closing.None? { return Err(UnexpectedEnd); }
        assert rest[0] == closing.value && rest[1..] == tokens[position..];
        if closing.value != Closing { return Err(MissingParenthesis); }
        return node;
      }
      if !token.value.Identifier? {
        return Err(UnexpectedToken);
      }
      return Ok(License(token.value.value));
    }

    method ParseWithNode() returns (r: Result<Node, Error>)
      requires Valid()
      modifies this
      ensures Agrees(r, ParseWith(old(tokens[position..])))
      ensures r.Ok? ==> position > old(position)
      decreases |tokens| - position, 1
    {
      hide ParsePrimary;
      ghost var start := position;
      r := ParsePrimaryNode();
      if r.Err? { return; }
      while position < |tokens| && tokens[position] == WithWord
        invariant Valid() && r.Ok? && position > start
        invariant WithTail(r.value, tokens[position..]) == ParseWith(tokens[start..])
        decreases |tokens| - position
      {
        ghost var ts := tokens[position..];
        var _ := Consume();
        var exception := Consume();
        if exception.None? { return Err(UnexpectedEnd); }
        assert ts[1] == exception.value && ts[2..] == tokens[position..];
        if !exception.value.Identifier? || !r.value.License? { return Err(InvalidWith); }
        r := Ok(License(r.value.id + " WITH " + exception.value.value));
      }
    }

    method ParseAndNode() returns (r: Result<Node, Error>)
      requires Valid()
      modifies this
      ensures Agrees(r, ParseAnd(old(tokens[position..])))
      ensures r.Ok? ==> position > old(position)
      decreases |tokens| - position, 2
    {
      hide ParseWith;
      ghost var start := position;
      r := ParseWithNode();
      if r.Err? { return; }
      while position < |tokens| && tokens[position] == AndWord
        invariant Valid() && r.Ok? && position > start
        invariant AndTail(r.value, tokens[position..]) == ParseAnd(tokens[start..])
        decreases |tokens| - position
      {
        ghost var ts := tokens[position..];
        var _ := Consume();
        assert ts[1..] == tokens[position..];
        var right := ParseWithNode();
        if right.Err? { return right; }
        r := Ok(And(r.value, right.value));
      }
    }

    method ParseOrNode() returns (r: Result<Node, Error>)
      requires Valid()
      modifies this
      ensures Agrees(r, ParseOr(old(tokens[position..])))
      ensures r.Ok? ==> position > old(position)
      decreases |tokens| - position, 3
    {
      hide ParseAnd;
      ghost var start := position;
      r := ParseAndNode();
      if r.Err? { return; }
      while position < |tokens| && tokens[position] == OrWord
        invariant Valid() && r.Ok? && position > start
        invariant OrTail(r.value, tokens[position..]) == ParseOr(tokens[start..])
        decreases |tokens| - position
      {
        ghost var ts := tokens[position..];
        var _ := Consume();
        assert ts[1..] == tokens[position..];
        var right := ParseAndNode();
        if right.Err? { return right; }
        r := Ok(Or(r.value, right.value));
      }
    }
  }

  method ParseLicenseExpression(expression: string) returns (r: Result<Node, Error>)
    ensures r == ParseTokens(Tokenize(expression))
  {
    hide ParseOr;
    var tokens := TokenizeLicenseExpression(expression);
    if tokens == [] {
      return Ok(License(UNKNOWN_LICENSE));
    }
    var parser := new ExpressionParser(tokens);
    assert tokens[0..] == tokens;
    r := parser.ParseOrNode();
    if r.Ok? && parser.position != |tokens| {
      return Err(TrailingTokens);
    }
  }
}
