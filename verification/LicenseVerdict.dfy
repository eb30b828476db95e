/**
  What evaluateLicensePolicy of scripts/release-report.ts reports, read off the fields of the
  policy and the spelling of the licenses.
 */
module LicenseVerdict {
  import opened Wrappers
  import opened License
  import opened LicensePolicy

  // ---------------------------------------------------------------------------
  // Reviewed exceptions
  // ---------------------------------------------------------------------------

  predicate SamePackage(casing: Casing, e: Exemption, package: Package) {
    casing.lower(e.package) == casing.lower(package.name)
  }

  /** The exemption is for another version, or for another license. */
  predicate ForOther(casing: Casing, e: Exemption, package: Package) {
    || (e.version.Some? && e.version != Some("*") && e.version != Some(package.version))
    || (e.license.Some? && casing.upper(e.license.value) != casing.upper(package.license))
  }

  /**
    A package passes by exception, whatever its license and whatever the lists say, if some
    exemption for its name is not for another version or another license; otherwise it is
    judged as if there were no exemptions.
   */
  lemma ExceptionExactly(casing: Casing, package: Package, policy: Policy)
    ensures var verdict := Evaluate(casing, package, policy);
            if exists i :: 0 <= i < |policy.exemptions| && SamePackage(casing, policy.exemptions[i], package)
                             && !ForOther(casing, policy.exemptions[i], package)
            then verdict == Ok(None)
            else verdict == Evaluate(casing, package, policy.(exemptions := []))
  {
    hide Tokenize, ParseTokens;
    var bare := policy.(exemptions := []);
    if i :| 0 <= i < |policy.exemptions| && SamePackage(casing, policy.exemptions[i], package)
              && !ForOther(casing, policy.exemptions[i], package)
    {
      assert Exempts(casing, policy.exemptions[i], package);
    } else {
      assert !IsExempt(casing, package, policy) && !IsExempt(casing, package, bare);
      SameDenials(casing, policy, bare);
      if ParseTokens(Tokenize(package.license)).Ok? {
        SameAllowed(casing, policy, bare, ParseTokens(Tokenize(package.license)).value);
      }
    }
  }

  lemma {:induction false} SameAllowed(casing: Casing, p: Policy, q: Policy, node: Node)
    requires q.allowed == p.allowed && q.allowUnknown == p.allowUnknown
    ensures Allowed(casing, q, node) == Allowed(casing, p, node)
  {
    match node {
      case License(_) =>
      case And(l, r) => SameAllowed(casing, p, q, l); SameAllowed(casing, p, q, r);
      case Or(l, r) => SameAllowed(casing, p, q, l); SameAllowed(casing, p, q, r);
    }
  }

  // ---------------------------------------------------------------------------
  // Spellings
  // ---------------------------------------------------------------------------

  /** The identifier is the entry, or the entry followed by a plus sign, up to case and outer blanks. */
  predicate Spells(casing: Casing, id: string, entry: string) {
    var (value, name) := (casing.upper(Trim(id)), casing.upper(Trim(entry)));
    value == name || value == name + "+"
  }

  predicate SaysUnknown(casing: Casing, id: string) {
    var value := casing.upper(Trim(id));
    || value == "" || value == "UNKNOWN" || value == "UNLICENSED" || value == "NONE"
    || (|value| >= 14 && value[..14] == "SEE LICENSE IN")
  }

  predicate AllBlank(s: string) {
    forall i :: 0 <= i < |s| ==> IsSpace(s[i])
  }

  /** Trimming takes all blanks away from both ends, and nothing else. */
  lemma TrimExactly(s: string) returns (before: string, after: string)
    ensures s == before + Trim(s) + after && AllBlank(before) && AllBlank(after)
    ensures Trim(s) != "" ==> !IsSpace(Trim(s)[0]) && !IsSpace(Trim(s)[|Trim(s)| - 1])
  {
    before := SkippedBlanks(s);
    after := TrimmedBlanks(SkipSpaces(s));
    if Trim(s) != "" {
      assert Trim(s)[0] == SkipSpaces(s)[0];
    }
  }

  lemma {:induction false} SkippedBlanks(s: string) returns (before: string)
    ensures s == before + SkipSpaces(s) && AllBlank(before)
  {
    before := "";
    if s != "" && IsSpace(s[0]) {
      before := SkippedBlanks(s[1..]);
      before := [s[0]] + before;
      assert s == [s[0]] + s[1..];
    }
  }

  lemma {:induction false} TrimmedBlanks(s: string) returns (after: string)
    ensures s == TrimEnd(s) + after && AllBlank(after)
    ensures TrimEnd(s) != "" ==> !IsSpace(TrimEnd(s)[|TrimEnd(s)| - 1])
  {
    after := "";
    if s != "" && IsSpace(s[|s| - 1]) {
      var last := s[|s| - 1];
      after := TrimmedBlanks(s[..|s| - 1]);
      assert s == s[..|s| - 1] + [last];
      after := after + [last];
    }
  }

  lemma SpellsNames(casing: Casing, id: string, entry: string)
    ensures Names(casing, entry, id) <==> Spells(casing, id, entry)
  {
    hide Trim;
    var (value, name) := (casing.upper(Trim(id)), casing.upper(Trim(entry)));
    if value == name + "+" {
      assert value[|value| - 1] == '+' && value[..|value| - 1] == name;
    }
  }

  lemma SaysIsUnknown(casing: Casing, id: string)
    ensures IsUnknown(casing, id) <==> SaysUnknown(casing, id)
  {
    hide Trim;
    var prefix := "SEE LICENSE IN";
    assert |prefix| == 14;
  }

  /** Some license of the expression is spelled like an entry of the list. */
  ghost predicate Mentions(casing: Casing, leaves: seq<string>, list: seq<string>) {
    exists i, j :: 0 <= i < |leaves| && 0 <= j < |list| && Spells(casing, casing.upper(leaves[i]), list[j])
  }

  lemma {:induction false} DeniedMentioned(casing: Casing, policy: Policy, leaves: seq<string>)
    ensures var entry := DeniedEntry(casing, policy, leaves);
            && (entry.Some? <==> Mentions(casing, leaves, policy.denied))
            && (entry.Some? ==> entry.value in policy.denied
                                && exists i :: 0 <= i < |leaves| && Spells(casing, casing.upper(leaves[i]), entry.value))
  {
    hide Spells, Names, ListMatch;
    if leaves != [] {
      var rest := leaves[1..];
      DeniedMentioned(casing, policy, rest);
      FirstMentioned(casing, policy, leaves);
      assert forall i :: 0 <= i < |rest| ==> rest[i] == leaves[i + 1];
      if Mentions(casing, rest, policy.denied) {
        var i, j :| 0 <= i < |rest| && 0 <= j < |policy.denied| && Spells(casing, casing.upper(rest[i]), policy.denied[j]);
        assert Spells(casing, casing.upper(leaves[i + 1]), policy.denied[j]);
      }
      if i, j :| 0 <= i < |leaves| && 0 <= j < |policy.denied| && Spells(casing, casing.upper(leaves[i]), policy.denied[j]) && i > 0 {
        assert Spells(casing, casing.upper(rest[i - 1]), policy.denied[j]);
      }
    }
  }

  lemma FirstMentioned(casing: Casing, policy: Policy, leaves: seq<string>)
    requires leaves != []
    ensures var matched := ListMatch(casing, casing.upper(leaves[0]), policy.denied);
            && (matched.Some? <==> exists j :: 0 <= j < |policy.denied| && Spells(casing, casing.upper(leaves[0]), policy.denied[j]))
            && (matched.Some? ==> matched.value in policy.denied && Spells(casing, casing.upper(leaves[0]), matched.value))
  {
    hide Spells, Names;
    var id := casing.upper(leaves[0]);
    forall j | 0 <= j < |policy.denied|
      ensures Names(casing, policy.denied[j], id) <==> Spells(casing, id, policy.denied[j])
    {
      SpellsNames(casing, id, policy.denied[j]);
    }
    var matched := ListMatch(casing, id, policy.denied);
    if matched.Some? {
      SpellsNames(casing, id, matched.value);
    }
  }

  lemma {:induction false} UnknownMentioned(casing: Casing, node: Node)
    ensures ContainsUnknown(casing, node) <==> exists i :: 0 <= i < |Leaves(node)| && SaysUnknown(casing, Leaves(node)[i])
  {
    hide IsUnknown, SaysUnknown;
    match node {
      case License(id) =>
        SaysIsUnknown(casing, id);
        assert Leaves(node)[0] == id;
      case And(l, r) =>
        UnknownMentioned(casing, l);
        UnknownMentioned(casing, r);
        EitherSide(casing, Leaves(l), Leaves(r));
        assert Leaves(node) == Leaves(l) + Leaves(r);
      case Or(l, r) =>
        UnknownMentioned(casing, l);
        UnknownMentioned(casing, r);
        EitherSide(casing, Leaves(l), Leaves(r));
        assert Leaves(node) == Leaves(l) + Leaves(r);
    }
  }

  lemma EitherSide(casing: Casing, a: seq<string>, b: seq<string>)
    ensures (exists i :: 0 <= i < |a + b| && SaysUnknown(casing, (a + b)[i]))
            <==> (exists i :: 0 <= i < |a| && SaysUnknown(casing, a[i])) || (exists i :: 0 <= i < |b| && SaysUnknown(casing, b[i]))
  {
    hide SaysUnknown;
    var all := a + b;
    if i :| 0 <= i < |a| && SaysUnknown(casing, a[i]) {
      assert all[i] == a[i];
    }
    if i :| 0 <= i < |b| && SaysUnknown(casing, b[i]) {
      assert all[|a| + i] == b[i];
    }
    if i :| 0 <= i < |all| && SaysUnknown(casing, all[i]) {
      assert all[i] == if i < |a| then a[i] else b[i - |a|];
    }
  }

  /** The license can be taken on: spelled like an allowed entry, or unknown where that is allowed. */
  predicate TakenOn(casing: Casing, policy: Policy, id: string) {
    if SaysUnknown(casing, id) then policy.allowUnknown
    else exists j :: 0 <= j < |policy.allowed| && Spells(casing, id, policy.allowed[j])
  }

  lemma TakenOnAcceptable(casing: Casing, policy: Policy, id: string)
    ensures Acceptable(casing, policy, id) <==> TakenOn(casing, policy, id)
  {
    hide IsUnknown, SaysUnknown, Spells, Names;
    SaysIsUnknown(casing, id);
    forall j | 0 <= j < |policy.allowed|
      ensures Names(casing, policy.allowed[j], id) <==> Spells(casing, id, policy.allowed[j])
    {
      SpellsNames(casing, id, policy.allowed[j]);
    }
  }

  ghost predicate AllTakenOn(casing: Casing, policy: Policy, ids: set<string>) {
    forall id :: id in ids ==> TakenOn(casing, policy, id)
  }

  /** Some choice at every OR leaves only licenses that can be taken on. */
  ghost predicate CanComply(casing: Casing, policy: Policy, node: Node) {
    exists ids :: Selects(node, ids) && AllTakenOn(casing, policy, ids)
  }

  lemma SameChoice(casing: Casing, policy: Policy, ids: set<string>)
    ensures AllTakenOn(casing, policy, ids) <==> AllAcceptable(casing, policy, ids)
  {
    hide Acceptable, TakenOn;
    forall id | id in ids
      ensures Acceptable(casing, policy, id) <==> TakenOn(casing, policy, id)
    {
      TakenOnAcceptable(casing, policy, id);
    }
  }

  lemma ComplyAllowed(casing: Casing, policy: Policy, node: Node)
    ensures CanComply(casing, policy, node) <==> exists ids :: Selects(node, ids) && AllAcceptable(casing, policy, ids)
  {
    hide Selects, AllAcceptable, AllTakenOn;
    forall ids: set<string> | Selects(node, ids)
      ensures AllTakenOn(casing, policy, ids) <==> AllAcceptable(casing, policy, ids)
    {
      SameChoice(casing, policy, ids);
    }
  }

  /**
    The verdict on a package without an exception, by the spelling of its licenses: a denied
    entry is reported if and only if some license anywhere in the expression is spelled like
    it; otherwise an unknown license, where those are not allowed; otherwise, unless nothing
    is listed as allowed, an expression no choice can comply with.
   */
  lemma SpelledVerdict(casing: Casing, package: Package, policy: Policy)
    requires KeepsText(casing) && policy.exemptions == [] && ParseTokens(Tokenize(package.license)).Ok?
    ensures var (verdict, node) := (Evaluate(casing, package, policy), ParseTokens(Tokenize(package.license)).value);
            if Mentions(casing, Leaves(node), policy.denied)
            then verdict.Ok? && verdict.value.Some? && verdict.value.value.Denied? && verdict.value.value.entry in policy.denied
                 && exists i :: 0 <= i < |Leaves(node)| && Spells(casing, casing.upper(Leaves(node)[i]), verdict.value.value.entry)
            else if !policy.allowUnknown && exists i :: 0 <= i < |Leaves(node)| && SaysUnknown(casing, Leaves(node)[i])
            then verdict == Ok(Some(UnknownNotAllowed))
            else verdict == Ok(if policy.allowed == [] || CanComply(casing, policy, node) then None else Some(NotCovered(package.license)))
  {
    hide Tokenize, ParseTokens, Selects, AllAcceptable, Leaves, DeniedEntry, ContainsUnknown, Evaluate, Spells, SaysUnknown, TakenOn, CanComply, Mentions;
    var node := ParseTokens(Tokenize(package.license)).value;
    VerdictExactly(casing, package, policy);
    DeniedMentioned(casing, policy, Leaves(node));
    UnknownMentioned(casing, node);
    ComplyAllowed(casing, policy, node);
  }
}
