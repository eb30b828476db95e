/**
  Which error a license expression is refused with, scripts/release-report.ts: that of the
  first token that cannot go on. A single pass from left to right, with one mark for each
  open parenthesis, says the same as the recursive descent parser.
 */
module LicenseErrors {
  import opened Wrappers
  import opened License

  /**
    Where the pass stands: Wanting an operand, or After one. single says that what WITH
    would refer to is one license, compound that the current level has an AND or OR.
   */
  datatype Stand = Wanting | After(single: bool)

  /** The error of the first token that cannot go on; None when the tokens are an expression. */
  function Scan(at: Stand, compound: bool, outer: seq<bool>, ts: seq<Token>): Option<Error>
    decreases |ts|
  {
    match at
    case Wanting =>
      if ts == [] then Some(UnexpectedEnd)
      else if ts[0] == Open then Scan(Wanting, false, outer + [compound], ts[1..])
      else if ts[0].Identifier? then Scan(After(true), compound, outer, ts[1..])
      else Some(UnexpectedToken)
    case After(single) =>
      if ts == [] then (if outer == [] then None else Some(UnexpectedEnd))
      else
        match ts[0]
        case AndWord => Scan(Wanting, true, outer, ts[1..])
        case OrWord => Scan(Wanting, true, outer, ts[1..])
        case WithWord =>
          if |ts| < 2 then Some(UnexpectedEnd)
          else if single && ts[1].Identifier? then Scan(After(true), compound, outer, ts[2..])
          else Some(InvalidWith)
        case Closing =>
          if outer == [] then Some(TrailingTokens)
          else Scan(After(single && !compound), outer[|outer| - 1], outer[..|outer| - 1], ts[1..])
        case _ => Some(if outer == [] then TrailingTokens else MissingParenthesis)
  }

  /** What the parser has read so far is an operand; the pass goes on behind it. */
  ghost predicate GoesOn(r: Parse, scan: Option<Error>, single: bool, compound: bool, outer: seq<bool>) {
    match r
    case Failed(e) => scan == Some(e)
    case Parsed(_, rest) => scan == Scan(After(single), compound, outer, rest)
  }

  /** An operand that WITH may follow. */
  lemma {:induction false} PrimaryScan(ts: seq<Token>, compound: bool, outer: seq<bool>)
    ensures var r := ParsePrimary(ts);
            GoesOn(r, Scan(Wanting, compound, outer, ts), r.Parsed? && r.node.License?, compound, outer)
    decreases |ts|, 0
  {
    if ts != [] && ts[0] == Open {
      var inner := ParseOr(ts[1..]);
      var more := outer + [compound];
      assert more[..|more| - 1] == outer;
      var single, marked := OrScan(ts[1..], false, more);
    }
  }

  lemma {:induction false} WithTailScan(node: Node, ts: seq<Token>, compound: bool, outer: seq<bool>)
    ensures var r := WithTail(node, ts);
            GoesOn(r, Scan(After(node.License?), compound, outer, ts), r.Parsed? && r.node.License?, compound, outer)
    ensures var r := WithTail(node, ts);
            r.Parsed? ==> !Next(r.rest, WithWord) && (r.node.License? <==> node.License?)
    decreases |ts|
  {
    if Next(ts, WithWord) && |ts| >= 2 && ts[1].Identifier? && node.License? {
      WithTailScan(License(node.id + " WITH " + ts[1].value), ts[2..], compound, outer);
    }
  }

  lemma {:induction false} WithScan(ts: seq<Token>, compound: bool, outer: seq<bool>)
    ensures var r := ParseWith(ts);
            && GoesOn(r, Scan(Wanting, compound, outer, ts), r.Parsed? && r.node.License?, compound, outer)
            && (r.Parsed? ==> !Next(r.rest, WithWord))
    decreases |ts|, 1
  {
    hide Scan;
    PrimaryScan(ts, compound, outer);
    var first := ParsePrimary(ts);
    if first.Parsed? {
      WithTailScan(first.node, first.rest, compound, outer);
    }
  }

  /** At a level without AND and OR, what was read is one license just when the pass says so. */
  predicate Agrees(node: Node, single: bool, compound: bool) {
    single && !compound <==> node.License?
  }

  /** The operands of an AND: where the pass stands behind them. */
  lemma {:induction false} AndTailScan(node: Node, ts: seq<Token>, single: bool, compound: bool, outer: seq<bool>)
    returns (last: bool, marked: bool)
    requires !Next(ts, WithWord)
    ensures var r := AndTail(node, ts);
            && GoesOn(r, Scan(After(single), compound, outer, ts), last, marked, outer)
            && (r.Parsed? ==> !Next(r.rest, WithWord) && !Next(r.rest, AndWord))
            && (if Next(ts, AndWord) then marked && (r.Parsed? ==> r.node.And?)
                else last == single && marked == compound && r == Parsed(node, ts))
    decreases |ts|, 2
  {
    last, marked := single, compound;
    if Next(ts, AndWord) {
      var right := ParseWith(ts[1..]);
      WithScan(ts[1..], true, outer);
      marked := true;
      if right.Parsed? {
        var both := And(node, right.node);
        last, marked := AndTailScan(both, right.rest, right.node.License?, true, outer);
      }
    }
  }

  lemma {:induction false} AndScan(ts: seq<Token>, compound: bool, outer: seq<bool>) returns (last: bool, marked: bool)
    ensures var r := ParseAnd(ts);
            && GoesOn(r, Scan(Wanting, compound, outer, ts), last, marked, outer)
            && (r.Parsed? ==> !Next(r.rest, WithWord) && !Next(r.rest, AndWord))
            && (compound ==> marked) && (r.Parsed? && !compound ==> Agrees(r.node, last, marked))
    decreases |ts|, 3
  {
    hide Scan;
    WithScan(ts, compound, outer);
    var first := ParseWith(ts);
    last, marked := false, compound;
    if first.Parsed? {
      last, marked := AndTailScan(first.node, first.rest, first.node.License?, compound, outer);
    }
  }

  lemma {:induction false} OrTailScan(node: Node, ts: seq<Token>, single: bool, compound: bool, outer: seq<bool>)
    returns (last: bool, marked: bool)
    requires !Next(ts, WithWord) && !Next(ts, AndWord)
    ensures var r := OrTail(node, ts);
            && GoesOn(r, Scan(After(single), compound, outer, ts), last, marked, outer)
            && (r.Parsed? ==> !Next(r.rest, WithWord) && !Next(r.rest, AndWord) && !Next(r.rest, OrWord))
            && (if Next(ts, OrWord) then marked && (r.Parsed? ==> r.node.Or?)
                else last == single && marked == compound && r == Parsed(node, ts))
    decreases |ts|, 4
  {
    last, marked := single, compound;
    if Next(ts, OrWord) {
      var right := ParseAnd(ts[1..]);
      var l, m := AndScan(ts[1..], true, outer);
      marked := true;
      if right.Parsed? {
        var either := Or(node, right.node);
        last, marked := OrTailScan(either, right.rest, l, m, outer);
      }
    }
  }

  /** A whole level: what follows it is neither an operator nor WITH. */
  lemma {:induction false} OrScan(ts: seq<Token>, compound: bool, outer: seq<bool>) returns (last: bool, marked: bool)
    ensures var r := ParseOr(ts);
            && GoesOn(r, Scan(Wanting, compound, outer, ts), last, marked, outer)
            && (r.Parsed? ==> !Next(r.rest, WithWord) && !Next(r.rest, AndWord) && !Next(r.rest, OrWord))
            && (compound ==> marked) && (r.Parsed? && !compound ==> Agrees(r.node, last, marked))
    decreases |ts|, 5
  {
    hide Scan;
    last, marked := AndScan(ts, compound, outer);
    var first := ParseAnd(ts);
    if first.Parsed? {
      last, marked := OrTailScan(first.node, first.rest, last, marked, outer);
    }
  }

  /** The parser refuses exactly the token lists the pass refuses, each with the error of the pass. */
  lemma ErrorsExactly(ts: seq<Token>)
    requires ts != []
    ensures var scan := Scan(Wanting, false, [], ts);
            && (ParseTokens(ts).Ok? <==> scan == None)
            && (scan.Some? ==> ParseTokens(ts) == Err(scan.value))
  {
    var last, marked := OrScan(ts, false, []);
  }
}
