/**
  The license policy of scripts/release-report.ts: which packages pass, and what is
  reported for the others.
 */
module LicensePolicy {
  import opened Wrappers
  import opened License
  import LicenseGrammar

  /** String.prototype.toUpperCase and toLowerCase, of which only this is used: text does not vanish. */
  datatype Casing = Casing(upper: string -> string, lower: string -> string)

  ghost predicate KeepsText(casing: Casing) {
    forall s :: s != "" ==> casing.upper(s) != ""
  }

  datatype Exemption = Exemption(package: string, version: Option<string>, license: Option<string>)
  datatype Policy = Policy(allowed: seq<string>, denied: seq<string>, allowUnknown: bool, exemptions: seq<Exemption>)
  datatype Package = Package(name: string, version: string, license: string)
  datatype Reason = Denied(entry: string) | UnknownNotAllowed | NotCovered(license: string)

  // ---------------------------------------------------------------------------
  // One identifier
  // ---------------------------------------------------------------------------

  function TrimEnd(s: string): string {
    if s != "" && IsSpace(s[|s| - 1]) then TrimEnd(s[..|s| - 1]) else s
  }

  function Trim(s: string): string {
    TrimEnd(SkipSpaces(s))
  }

  function Normalized(casing: Casing, s: string): string {
    casing.upper(Trim(s))
  }

  predicate IsUnknown(casing: Casing, id: string) {
    var value := Normalized(casing, id);
    value in {"", UNKNOWN_LICENSE, "UNLICENSED", "NONE"} || "SEE LICENSE IN" <= value
  }

  /** The list entry is spelled like the identifier, up to case, outer blanks and one final plus sign of the identifier. */
  predicate Names(casing: Casing, entry: string, id: string) {
    var candidate := Normalized(casing, entry);
    var value := Normalized(casing, id);
    candidate == value || candidate == (if value != "" && value[|value| - 1] == '+' then value[..|value| - 1] else value)
  }

  function ListMatch(casing: Casing, id: string, list: seq<string>): (r: Option<string>)
    ensures r.None? <==> forall i :: 0 <= i < |list| ==> !Names(casing, list[i], id)
    ensures r.Some? ==> r.value in list && Names(casing, r.value, id)
  {
    if list == [] then None
    else if Names(casing, list[0], id) then Some(list[0])
    else ListMatch(casing, id, list[1..])
  }

  predicate Acceptable(casing: Casing, policy: Policy, id: string) {
    if IsUnknown(casing, id) then policy.allowUnknown else ListMatch(casing, id, policy.allowed).Some?
  }

  // ---------------------------------------------------------------------------
  // Whole expressions
  // ---------------------------------------------------------------------------

  /** collectIdentifiers: the upper-case identifiers as a Set keeps them, in order of insertion. */
  function Collect(casing: Casing, node: Node, found: seq<string>): seq<string> {
    match node
    case License(id) => var upper := casing.upper(id); if upper in found then found else found + [upper]
    case And(l, r) => Collect(casing, r, Collect(casing, l, found))
    case Or(l, r) => Collect(casing, r, Collect(casing, l, found))
  }

  predicate ContainsUnknown(casing: Casing, node: Node) {
    match node
    case License(id) => IsUnknown(casing, id)
    case And(l, r) => ContainsUnknown(casing, l) || ContainsUnknown(casing, r)
    case Or(l, r) => ContainsUnknown(casing, l) || ContainsUnknown(casing, r)
  }

  predicate Allowed(casing: Casing, policy: Policy, node: Node) {
    match node
    case License(id) => Acceptable(casing, policy, id)
    case And(l, r) => Allowed(casing, policy, l) && Allowed(casing, policy, r)
    case Or(l, r) => Allowed(casing, policy, l) || Allowed(casing, policy, r)
  }

  predicate Exempts(casing: Casing, e: Exemption, package: Package) {
    && casing.lower(e.package) == casing.lower(package.name)
    && (e.version.None? || e.version.value == "*" || e.version.value == package.version)
    && (e.license.None? || casing.upper(e.license.value) == casing.upper(package.license))
  }

  predicate IsExempt(casing: Casing, package: Package, policy: Policy) {
    exists i :: 0 <= i < |policy.exemptions| && Exempts(casing, policy.exemptions[i], package)
  }

  function FirstDenied(casing: Casing, policy: Policy, ids: seq<string>): Option<string> {
    if ids == [] then None
    else if ListMatch(casing, ids[0], policy.denied).Some? then Some(ids[0])
    else FirstDenied(casing, policy, ids[1..])
  }

  /** The verdict: an error when the expression does not parse, Ok(None) when the package passes. */
  function Evaluate(casing: Casing, package: Package, policy: Policy): Result<Option<Reason>, Error> {
    if IsExempt(casing, package, policy) then Ok(None)
    else
      var parsed := ParseTokens(Tokenize(package.license));
      if parsed.Err? then Err(parsed.error) else Ok(Judge(casing, package, policy, parsed.value))
  }

  function Judge(casing: Casing, package: Package, policy: Policy, node: Node): Option<Reason> {
    var denied := FirstDenied(casing, policy, Collect(casing, node, []));
    if denied.Some? && denied.value != "" then
      var matched := ListMatch(casing, denied.value, policy.denied);
      Some(Denied(if matched.Some? then matched.value else denied.value))
    else if ContainsUnknown(casing, node) && !policy.allowUnknown then Some(UnknownNotAllowed)
    else if policy.allowed == [] then None
    else if Allowed(casing, policy, node) then None
    else Some(NotCovered(package.license))
  }

  // ---------------------------------------------------------------------------
  // Choosing among the alternatives
  // ---------------------------------------------------------------------------

  /** The consumer picks one side of every OR: ids are the licenses then taken on. */
  ghost predicate Selects(node: Node, ids: set<string>) {
    match node
    case License(id) => ids == {id}
    case And(l, r) => exists a, b :: Selects(l, a) && Selects(r, b) && ids == a + b
    case Or(l, r) => Selects(l, ids) || Selects(r, ids)
  }

  ghost predicate AllAcceptable(casing: Casing, policy: Policy, ids: set<string>) {
    forall id :: id in ids ==> Acceptable(casing, policy, id)
  }

  /** An expression is allowed exactly when some choice takes on acceptable licenses only. */
  lemma {:induction false} AllowedExactly(casing: Casing, policy: Policy, node: Node)
    ensures Allowed(casing, policy, node) <==> exists ids :: Selects(node, ids) && AllAcceptable(casing, policy, ids)
  {
    hide Acceptable;
    match node {
      case License(id) =>
        assert Selects(node, {id});
      case And(l, r) =>
        AllowedExactly(casing, policy, l);
        AllowedExactly(casing, policy, r);
        if Allowed(casing, policy, node) {
          var a :| Selects(l, a) && AllAcceptable(casing, policy, a);
          var b :| Selects(r, b) && AllAcceptable(casing, policy, b);
          assert Selects(node, a + b);
        }
        forall ids | Selects(node, ids) && AllAcceptable(casing, policy, ids)
          ensures Allowed(casing, policy, node)
        {
          var a, b :| Selects(l, a) && Selects(r, b) && ids == a + b;
          assert AllAcceptable(casing, policy, a) && AllAcceptable(casing, policy, b);
        }
      case Or(l, r) =>
        AllowedExactly(casing, policy, l);
        AllowedExactly(casing, policy, r);
        if ids :| Selects(l, ids) && AllAcceptable(casing, policy, ids) { assert Selects(node, ids); }
        if ids :| Selects(r, ids) && AllAcceptable(casing, policy, ids) { assert Selects(node, ids); }
    }
  }

  // ---------------------------------------------------------------------------
  // The identifiers of an expression, in reading order
  // ---------------------------------------------------------------------------

  function Leaves(node: Node): (ids: seq<string>)
    ensures ids != []
  {
    match node
    case License(id) => [id]
    case And(l, r) => Leaves(l) + Leaves(r)
    case Or(l, r) => Leaves(l) + Leaves(r)
  }

  /** The entry reported for the first identifier of the sequence that is on the denied list. */
  function DeniedEntry(casing: Casing, policy: Policy, leaves: seq<string>): Option<string> {
    if leaves == [] then None
    else
      var matched := ListMatch(casing, casing.upper(leaves[0]), policy.denied);
      if matched.Some? then matched else DeniedEntry(casing, policy, leaves[1..])
  }

  /** Insertion of a sequence of identifiers into the Set. */
  function Inserted(casing: Casing, leaves: seq<string>, found: seq<string>): seq<string> {
    if leaves == [] then found
    else
      var upper := casing.upper(leaves[0]);
      Inserted(casing, leaves[1..], if upper in found then found else found + [upper])
  }

  lemma {:induction false} InsertedConcat(casing: Casing, a: seq<string>, b: seq<string>, found: seq<string>)
    ensures Inserted(casing, a + b, found) == Inserted(casing, b, Inserted(casing, a, found))
  {
    if a == [] {
      assert a + b == b;
    } else {
      var upper := casing.upper(a[0]);
      assert (a + b)[1..] == a[1..] + b;
      InsertedConcat(casing, a[1..], b, if upper in found then found else found + [upper]);
    }
  }

  lemma {:induction false} CollectLeaves(casing: Casing, node: Node, found: seq<string>)
    ensures Collect(casing, node, found) == Inserted(casing, Leaves(node), found)
  {
    match node {
      case License(id) =>
        assert Leaves(node)[1..] == [];
      case And(l, r) =>
        CollectLeaves(casing, l, found);
        CollectLeaves(casing, r, Collect(casing, l, found));
        InsertedConcat(casing, Leaves(l), Leaves(r), found);
      case Or(l, r) =>
        CollectLeaves(casing, l, found);
        CollectLeaves(casing, r, Collect(casing, l, found));
        InsertedConcat(casing, Leaves(l), Leaves(r), found);
    }
  }

  /** The entry matched by the first denied element of the Set. */
  function EntryOf(casing: Casing, policy: Policy, ids: seq<string>): Option<string> {
    var denied := FirstDenied(casing, policy, ids);
    if denied.None? then None else ListMatch(casing, denied.value, policy.denied)
  }

  lemma {:induction false} FirstDeniedConcat(casing: Casing, policy: Policy, a: seq<string>, b: seq<string>)
    ensures FirstDenied(casing, policy, a + b)
         == if FirstDenied(casing, policy, a).Some? then FirstDenied(casing, policy, a) else FirstDenied(casing, policy, b)
    ensures FirstDenied(casing, policy, a).None? <==> forall i :: 0 <= i < |a| ==> ListMatch(casing, a[i], policy.denied).None?
  {
    hide ListMatch;
    if a == [] {
      assert a + b == b;
    } else {
      assert (a + b)[1..] == a[1..] + b;
      FirstDeniedConcat(casing, policy, a[1..], b);
      assert forall i :: 0 < i < |a| ==> a[i] == a[1..][i - 1];
    }
  }

  /** Repetitions left out by the Set do not change which entry is reported. */
  lemma {:induction false} InsertedDenied(casing: Casing, policy: Policy, leaves: seq<string>, found: seq<string>)
    ensures EntryOf(casing, policy, Inserted(casing, leaves, found))
         == if EntryOf(casing, policy, found).Some? then EntryOf(casing, policy, found) else DeniedEntry(casing, policy, leaves)
  {
    hide ListMatch;
    if leaves != [] {
      var upper := casing.upper(leaves[0]);
      var more := if upper in found then found else found + [upper];
      InsertedDenied(casing, policy, leaves[1..], more);
      FirstDeniedConcat(casing, policy, found, [upper]);
      SingleDenied(casing, policy, upper);
      DeniedMatched(casing, policy, found);
      DeniedMatched(casing, policy, more);
    }
  }

  lemma SingleDenied(casing: Casing, policy: Policy, id: string)
    ensures FirstDenied(casing, policy, [id]) == if ListMatch(casing, id, policy.denied).Some? then Some(id) else None
  {
  }

  lemma {:induction false} DeniedMatched(casing: Casing, policy: Policy, ids: seq<string>)
    ensures var d := FirstDenied(casing, policy, ids); d.Some? ==> d.value in ids && ListMatch(casing, d.value, policy.denied).Some?
  {
    if ids != [] {
      DeniedMatched(casing, policy, ids[1..]);
    }
  }

  // ---------------------------------------------------------------------------
  // Parsed identifiers are not empty
  // ---------------------------------------------------------------------------

  predicate NoEmptyName(ts: seq<Token>) {
    forall i :: 0 <= i < |ts| && ts[i].Identifier? ==> ts[i].value != ""
  }

  predicate NoEmptyLeaf(node: Node) {
    match node
    case License(id) => id != ""
    case And(l, r) => NoEmptyLeaf(l) && NoEmptyLeaf(r)
    case Or(l, r) => NoEmptyLeaf(l) && NoEmptyLeaf(r)
  }

  lemma {:induction false} TokensNonEmpty(s: string)
    ensures NoEmptyName(Tokenize(s))
    decreases |s|
  {
    var rest := SkipSpaces(s);
    if rest != "" {
      hide Classify;
      var n := MatchLength(rest);
      TokensNonEmpty(rest[n..]);
      assert Classify(rest[..n]).Identifier? ==> Classify(rest[..n]).value == rest[..n] by { ClassifyKeeps(rest[..n]); }
    }
  }

  lemma ClassifyKeeps(value: string)
    ensures Classify(value).Identifier? ==> Classify(value).value == value
  {
  }

  lemma {:induction false} LeavesNonEmpty(c: LicenseGrammar.Cst)
    requires NoEmptyName(LicenseGrammar.Tokens(c))
    ensures NoEmptyLeaf(LicenseGrammar.Ast(c))
  {
    var ts := LicenseGrammar.Tokens(c);
    match c {
      case CName(id) => assert ts[0].value == id;
      case CParen(inner) => Infix([Open], LicenseGrammar.Tokens(inner), [Closing]); LeavesNonEmpty(inner);
      case CWith(base, x) =>
        assert ts == [] + LicenseGrammar.Tokens(base) + [WithWord, Identifier(x)];
        Infix([], LicenseGrammar.Tokens(base), [WithWord, Identifier(x)]); LeavesNonEmpty(base);
      case CAnd(l, r) =>
        Pair(LicenseGrammar.Tokens(l), [AndWord], LicenseGrammar.Tokens(r)); LeavesNonEmpty(l); LeavesNonEmpty(r);
      case COr(l, r) =>
        Pair(LicenseGrammar.Tokens(l), [OrWord], LicenseGrammar.Tokens(r)); LeavesNonEmpty(l); LeavesNonEmpty(r);
    }
  }

  lemma Infix(a: seq<Token>, b: seq<Token>, c: seq<Token>)
    requires NoEmptyName(a + b + c)
    ensures NoEmptyName(b)
  {
    forall i | 0 <= i < |b| && b[i].Identifier?
      ensures b[i].value != ""
    {
      assert (a + b + c)[|a| + i] == b[i];
    }
  }

  lemma Pair(a: seq<Token>, m: seq<Token>, b: seq<Token>)
    requires NoEmptyName(a + m + b)
    ensures NoEmptyName(a) && NoEmptyName(b)
  {
    Infix(a + m, b, []);
    assert a + m + b == a + m + b + [];
    assert a + m + b == [] + a + (m + b);
    Infix([], a, m + b);
  }

  lemma ParsedNonEmpty(s: string)
    ensures var parsed := ParseTokens(Tokenize(s)); parsed.Ok? ==> NoEmptyLeaf(parsed.value)
  {
    hide Tokenize, LicenseGrammar.Tokens, LicenseGrammar.IsOr, LicenseGrammar.Ast;
    var ts := Tokenize(s);
    var parsed := ParseTokens(ts);
    if ts != [] && parsed.Ok? {
      hide ParseTokens;
      LicenseGrammar.ParsesExactly(ts, parsed.value);
      var c :| LicenseGrammar.IsOr(c) && LicenseGrammar.Tokens(c) == ts && LicenseGrammar.Ast(c) == parsed.value;
      TokensNonEmpty(s);
      LeavesNonEmpty(c);
    }
  }

  lemma {:induction false} LeafNonEmpty(node: Node)
    requires NoEmptyLeaf(node)
    ensures forall i :: 0 <= i < |Leaves(node)| ==> Leaves(node)[i] != ""
  {
    match node {
      case License(_) =>
      case And(l, r) => LeafNonEmpty(l); LeafNonEmpty(r);
      case Or(l, r) => LeafNonEmpty(l); LeafNonEmpty(r);
    }
  }

  lemma {:induction false} InsertedNonEmpty(casing: Casing, leaves: seq<string>, found: seq<string>)
    requires KeepsText(casing) && "" !in found && forall i :: 0 <= i < |leaves| ==> leaves[i] != ""
    ensures "" !in Inserted(casing, leaves, found)
  {
    if leaves != [] {
      var upper := casing.upper(leaves[0]);
      InsertedNonEmpty(casing, leaves[1..], if upper in found then found else found + [upper]);
    }
  }

  // ---------------------------------------------------------------------------
  // The verdict
  // ---------------------------------------------------------------------------

  /**
    What is reported, in the order of precedence: nothing for a reviewed package; then the
    list entry of the first denied identifier in reading order, whichever side of an OR it
    stands on; then an unknown license anywhere; then, unless the allow list is empty, an
    expression with no acceptable choice.
   */
  lemma VerdictExactly(casing: Casing, package: Package, policy: Policy)
    requires KeepsText(casing) && !IsExempt(casing, package, policy)
    ensures var parsed := ParseTokens(Tokenize(package.license));
            var verdict := Evaluate(casing, package, policy);
            if parsed.Err? then verdict == Err(parsed.error)
            else
              var node := parsed.value;
              var entry := DeniedEntry(casing, policy, Leaves(node));
              if entry.Some? then verdict == Ok(Some(Denied(entry.value)))
              else if ContainsUnknown(casing, node) && !policy.allowUnknown then verdict == Ok(Some(UnknownNotAllowed))
              else if policy.allowed == [] || (exists ids :: Selects(node, ids) && AllAcceptable(casing, policy, ids)) then verdict == Ok(None)
              else verdict == Ok(Some(NotCovered(package.license)))
  {
    hide Tokenize, ParseTokens, Selects, AllAcceptable, Collect, Leaves, DeniedEntry, ContainsUnknown, Allowed, FirstDenied, ListMatch, Exempts;
    var parsed := ParseTokens(Tokenize(package.license));
    if parsed.Ok? {
      var node := parsed.value;
      AllowedExactly(casing, policy, node);
      ParsedNonEmpty(package.license);
      DeniedExactly(casing, policy, node);
    }
  }

  lemma DeniedExactly(casing: Casing, policy: Policy, node: Node)
    requires KeepsText(casing) && NoEmptyLeaf(node)
    ensures var denied := FirstDenied(casing, policy, Collect(casing, node, []));
            var entry := DeniedEntry(casing, policy, Leaves(node));
            && (entry.Some? <==> denied.Some? && denied.value != "")
            && (denied.Some? ==> ListMatch(casing, denied.value, policy.denied) == entry)
  {
    hide Collect, Leaves, DeniedEntry, ListMatch, NoEmptyLeaf, Inserted;
    CollectLeaves(casing, node, []);
    LeafNonEmpty(node);
    InsertedNonEmpty(casing, Leaves(node), []);
    InsertedDenied(casing, policy, Leaves(node), []);
    DeniedMatched(casing, policy, Collect(casing, node, []));
  }

  // ---------------------------------------------------------------------------
  // Longer lists
  // ---------------------------------------------------------------------------

  /** Every entry of the one list is on the other. */
  ghost predicate Within(a: seq<string>, b: seq<string>) {
    forall i :: 0 <= i < |a| ==> a[i] in b
  }

  lemma ListMatchGrows(casing: Casing, id: string, a: seq<string>, b: seq<string>)
    requires Within(a, b)
    ensures ListMatch(casing, id, a).Some? ==> ListMatch(casing, id, b).Some?
  {
    hide Names;
    if ListMatch(casing, id, a).Some? {
      var entry := ListMatch(casing, id, a).value;
      var i :| 0 <= i < |a| && a[i] == entry;
      assert a[i] in b;
      var k :| 0 <= k < |b| && b[k] == entry;
      assert Names(casing, b[k], id);
    }
  }

  lemma {:induction false} AllowedGrows(casing: Casing, p: Policy, q: Policy, node: Node)
    requires Within(p.allowed, q.allowed) && (p.allowUnknown ==> q.allowUnknown) && Allowed(casing, p, node)
    ensures Allowed(casing, q, node)
  {
    match node {
      case License(id) => ListMatchGrows(casing, id, p.allowed, q.allowed);
      case And(l, r) => AllowedGrows(casing, p, q, l); AllowedGrows(casing, p, q, r);
      case Or(l, r) => if Allowed(casing, p, l) { AllowedGrows(casing, p, q, l); } else { AllowedGrows(casing, p, q, r); }
    }
  }

  /**
    A longer allow list never turns a passing package away, unless it was empty: the first
    entry of an empty allow list is what switches the check on.
   */
  lemma LongerAllowList(casing: Casing, package: Package, p: Policy, more: seq<string>)
    requires p.allowed != [] && Evaluate(casing, package, p) == Ok(None)
    ensures Evaluate(casing, package, p.(allowed := p.allowed + more)) == Ok(None)
  {
    hide Tokenize, ParseTokens, Collect, Allowed, ContainsUnknown, FirstDenied, Exempts;
    var q := p.(allowed := p.allowed + more);
    SameDenials(casing, p, q);
    if !IsExempt(casing, package, p) {
      var node := ParseTokens(Tokenize(package.license)).value;
      assert Judge(casing, package, p, node) == None;
      assert Within(p.allowed, q.allowed);
      AllowedGrows(casing, p, q, node);
    } else {
      assert IsExempt(casing, package, q);
    }
  }

  lemma {:induction false} SameFirstDenied(casing: Casing, p: Policy, q: Policy, ids: seq<string>)
    requires p.denied == q.denied
    ensures FirstDenied(casing, p, ids) == FirstDenied(casing, q, ids)
  {
    if ids != [] {
      SameFirstDenied(casing, p, q, ids[1..]);
    }
  }

  lemma SameDenials(casing: Casing, p: Policy, q: Policy)
    requires p.denied == q.denied
    ensures forall ids :: FirstDenied(casing, p, ids) == FirstDenied(casing, q, ids)
  {
    forall ids
      ensures FirstDenied(casing, p, ids) == FirstDenied(casing, q, ids)
    {
      SameFirstDenied(casing, p, q, ids);
    }
  }

  /**
    What the first entries of an empty allow list do: a package that passed goes on passing
    exactly when some choice takes on licenses only that the new list accepts.
   */
  lemma FirstAllowList(casing: Casing, package: Package, p: Policy, list: seq<string>)
    requires p.allowed == [] && list != [] && Evaluate(casing, package, p) == Ok(None) && !IsExempt(casing, package, p)
    ensures var q := p.(allowed := list);
            var node := ParseTokens(Tokenize(package.license)).value;
            Evaluate(casing, package, q) == Ok(None) <==> exists ids :: Selects(node, ids) && AllAcceptable(casing, q, ids)
  {
    hide Tokenize, ParseTokens, Collect, Allowed, ContainsUnknown, FirstDenied, Exempts, Selects, AllAcceptable;
    var q := p.(allowed := list);
    var node := ParseTokens(Tokenize(package.license)).value;
    SameDenials(casing, p, q);
    assert Judge(casing, package, p, node) == None;
    AllowedExactly(casing, q, node);
  }

  /** The exception in LongerAllowList is real: MIT passes an empty allow list and fails one with another entry. */
  lemma EmptyAllowListPasses()
    ensures var casing := Casing(s => s, s => s);
            var package := Package("pkg", "1.0.0", "MIT");
            var policy := Policy([], [], false, []);
            && Evaluate(casing, package, policy) == Ok(None)
            && Evaluate(casing, package, policy.(allowed := ["ISC"])) == Ok(Some(NotCovered("MIT")))
  {
    hide Tokenize, ParseTokens, Judge;
    var casing := Casing(s => s, s => s);
    MitParses();
    MitJudged(casing, Policy([], [], false, []));
    MitJudged(casing, Policy(["ISC"], [], false, []));
  }

  lemma MitJudged(casing: Casing, policy: Policy)
    requires casing == Casing(s => s, s => s) && policy.denied == [] && (policy.allowed == [] || policy.allowed == ["ISC"])
    ensures Judge(casing, Package("pkg", "1.0.0", "MIT"), policy, License("MIT"))
         == if policy.allowed == [] then None else Some(NotCovered("MIT"))
  {
    hide Normalized;
    assert Normalized(casing, "MIT") == "MIT" && Normalized(casing, "ISC") == "ISC" by { MitNormalized(casing); }
    assert !IsUnknown(casing, "MIT");
    assert !Names(casing, "ISC", "MIT");
    FirstDeniedConcat(casing, policy, Collect(casing, License("MIT"), []), []);
  }

  lemma MitNormalized(casing: Casing)
    requires casing == Casing(s => s, s => s)
    ensures Normalized(casing, "MIT") == "MIT" && Normalized(casing, "ISC") == "ISC"
  {
  }

  lemma MitParses()
    ensures ParseTokens(Tokenize("MIT")) == Ok(License("MIT"))
  {
    assert LicenseGrammar.GoodId("MIT") by {
      assert Upper("MIT")[0] == 'M';
    }
    LicenseGrammar.IdentifierExactly("MIT");
  }
}
