/**
  What holds over every run of the registry: where configuration comes from, when it can
  change, what a proposal keeps, which proposals can still be executed.
 */
module AlertRegistryRuns {
  import opened Wrappers
  import opened AlertRegistry

  // ---------------------------------------------------------------------------
  // Configuration is the writes, and the writes are gated
  // ---------------------------------------------------------------------------

  /** The configuration that a sequence of writes leaves. */
  function Replayed(writes: seq<Write>): map<Symbol, string> {
    if writes == [] then map[]
    else
      var last := writes[|writes| - 1];
      Replayed(writes[..|writes| - 1])[last.key := last.value]
  }

  /** One call makes at most one write; above a threshold of 1 only for a proposal with enough approvals. */
  ghost predicate Gated(s: Store, t: Store) {
    || (t.writes == s.writes && t.config == s.config)
    || (|t.writes| > 0 && var w := t.writes[|t.writes| - 1];
        && t.writes == s.writes + [w] && t.config == s.config[w.key := w.value]
        && w.threshold == Threshold(s)
        && (Threshold(s) > 1 ==> w.origin.Some? && |w.approvals| >= Threshold(s)))
  }

  lemma PerformGated(s: Store, call: Call)
    ensures Gated(s, Perform(s, call).0)
  {
    hide DoPropose, DoApprove, DoUpdateConfig, DoSetSigners;
    match call.op {
      case ProposeConfig(proposer, key, value) => ProposeGated(s, call.auth, proposer, key, value);
      case ApproveProposal(signer, id) => ApproveGated(s, call.auth, signer, id);
      case UpdateConfig(admin, key, value) => UpdateGated(s, call.auth, admin, key, value);
      case SetSigners(admin, signers, threshold) => SetSignersFields(s, call.auth, admin, signers, threshold);
      case _ => OtherFields(s, call);
    }
  }

  lemma SaveGated(base: Store, id: nat, p: Proposal)
    ensures Gated(base, SaveAndMaybeExecute(base, id, p))
  {
  }

  lemma ProposeGated(s: Store, auth: set<Address>, proposer: Address, key: Symbol, value: string)
    ensures Gated(s, DoPropose(s, auth, proposer, key, value).0)
  {
    hide SaveAndMaybeExecute, SignerRefusal;
    var id := NextId(s);
    SaveGated(s.(nextProposal := Some(id + 1), consents := s.consents + [Consent(id, proposer, Signers(s))]), id, Proposal(key, value, [proposer], false));
  }

  lemma ApproveGated(s: Store, auth: set<Address>, signer: Address, id: nat)
    ensures Gated(s, DoApprove(s, auth, signer, id).0)
  {
    hide SaveAndMaybeExecute, SignerRefusal;
    if id in s.proposals {
      var p := s.proposals[id];
      SaveGated(s.(consents := s.consents + [Consent(id, signer, Signers(s))]), id, p.(approvals := p.approvals + [signer]));
    }
  }

  lemma UpdateGated(s: Store, auth: set<Address>, caller: Address, key: Symbol, value: string)
    ensures Gated(s, DoUpdateConfig(s, auth, caller, key, value).0)
  {
  }

  lemma {:induction false} ConfigIsWrites(calls: seq<Call>)
    ensures Run(Empty, calls).config == Replayed(Run(Empty, calls).writes)
  {
    hide Perform;
    if calls != [] {
      var s := Run(Empty, calls[..|calls| - 1]);
      ConfigIsWrites(calls[..|calls| - 1]);
      PerformGated(s, calls[|calls| - 1]);
      var t := Run(Empty, calls);
      if t.writes != s.writes {
        assert t.writes[..|t.writes| - 1] == s.writes;
      }
    }
  }

  /**
    While the threshold is above 1, a call that changes the configuration in a reachable
    state executes a proposal: its key and value, with at least that many approvals, distinct
    and each from a signer of its moment.
   */
  lemma ThresholdGate(calls: seq<Call>, call: Call)
    requires var s := Run(Empty, calls); Threshold(s) > 1 && Perform(s, call).0.config != s.config
    ensures var s := Run(Empty, calls);
            var t := Perform(s, call).0;
            exists id :: id in t.proposals && t.proposals[id].executed
              && t.config == s.config[t.proposals[id].key := t.proposals[id].value]
              && |t.proposals[id].approvals| >= Threshold(s)
              && Distinct(t.proposals[id].approvals)
              && forall i :: 0 <= i < |t.proposals[id].approvals| ==> Consented(t, id, t.proposals[id].approvals[i])
  {
    hide Perform, Run, Distinct, Consented;
    var s := Run(Empty, calls);
    var t := Perform(s, call).0;
    PerformGated(s, call);
    Governance(calls);
    PerformKeeps(s, call);
    var w := t.writes[|t.writes| - 1];
    var id := w.origin.value;
    WriterExecuted(t, |t.writes| - 1, id);
  }

  /** A write names a proposal that has been executed and looks as it wrote. */
  lemma WriterExecuted(t: Store, i: nat, id: nat)
    requires Governed(t) && i < |t.writes| && t.writes[i].origin == Some(id)
    ensures id in t.proposals && t.proposals[id].executed && ProposalOk(t, id) && WroteProperly(t.writes[i], id, t.proposals[id])
  {
    hide Consented, Distinct, WroteProperly;
    assert !NeverWritten(t, id);
    assert id in t.proposals;
    assert ProposalOk(t, id);
  }

  // ---------------------------------------------------------------------------
  // What a proposal keeps
  // ---------------------------------------------------------------------------

  /** Later forms of a proposal: same change, approvals only added, and nothing after execution. */
  predicate Evolves(p: Proposal, q: Proposal) {
    && q.key == p.key && q.value == p.value
    && p.approvals <= q.approvals
    && (p.executed ==> q == p)
  }

  lemma EvolvesStep(s: Store, call: Call, id: nat)
    requires Governed(s) && id in s.proposals
    ensures id in Perform(s, call).0.proposals && Evolves(s.proposals[id], Perform(s, call).0.proposals[id])
  {
    hide Governed, DoUpdateConfig, DoSetSigners, SaveAndMaybeExecute, SignerRefusal;
    match call.op {
      case ProposeConfig(proposer, key, value) =>
        FreshId(s);
        var next := NextId(s);
        SaveProposals(s.(nextProposal := Some(next + 1), consents := s.consents + [Consent(next, proposer, Signers(s))]), next, Proposal(key, value, [proposer], false));
      case ApproveProposal(signer, k) =>
        if k in s.proposals {
          var p := s.proposals[k];
          SaveProposals(s.(consents := s.consents + [Consent(k, signer, Signers(s))]), k, p.(approvals := p.approvals + [signer]));
        }
      case UpdateConfig(admin, key, value) => UpdateProposals(s, call.auth, admin, key, value);
      case SetSigners(admin, signers, threshold) => SetSignersFields(s, call.auth, admin, signers, threshold);
      case _ => OtherFields(s, call);
    }
  }

  lemma SaveProposals(base: Store, id: nat, p: Proposal)
    ensures SaveAndMaybeExecute(base, id, p).proposals
         == base.proposals[id := if |p.approvals| >= Threshold(base) then p.(executed := true) else p]
  {
  }

  lemma UpdateProposals(s: Store, auth: set<Address>, caller: Address, key: Symbol, value: string)
    ensures DoUpdateConfig(s, auth, caller, key, value).0.proposals == s.proposals
  {
  }

  lemma EvolvesTransitive(p: Proposal, q: Proposal, r: Proposal)
    requires Evolves(p, q) && Evolves(q, r)
    ensures Evolves(p, r)
  {
  }

  /** From any reachable state on, a proposal keeps its key and value, its approvals and, once executed, everything. */
  lemma {:induction false} ProposalsFixed(s: Store, calls: seq<Call>, id: nat)
    requires Governed(s) && id in s.proposals
    ensures id in Run(s, calls).proposals && Evolves(s.proposals[id], Run(s, calls).proposals[id])
  {
    hide Governed, Perform, Evolves;
    if calls == [] {
      assert Evolves(s.proposals[id], s.proposals[id]) by { EvolvesSelf(s.proposals[id]); }
    } else {
      var front := calls[..|calls| - 1];
      ProposalsFixed(s, front, id);
      RunKeeps(s, front);
      EvolvesStep(Run(s, front), calls[|calls| - 1], id);
      EvolvesTransitive(s.proposals[id], Run(s, front).proposals[id], Run(s, calls).proposals[id]);
    }
  }

  lemma EvolvesSelf(p: Proposal)
    ensures Evolves(p, p)
  {
  }

  // ---------------------------------------------------------------------------
  // Who can change the rules
  // ---------------------------------------------------------------------------

  /** The admin, the signers, the threshold and the roles change only by a call the admin has authorized, or by the first initialize. */
  lemma RulesByAdmin(s: Store, call: Call)
    ensures var t := Perform(s, call).0;
            || (t.admin == s.admin && t.signers == s.signers && t.threshold == s.threshold && t.configManagers == s.configManagers)
            || (s.admin.Some? && s.admin.value in call.auth)
            || (s.admin.None? && call.op.Initialize? && t == s.(admin := Some(call.op.admin)) && call.op.admin in call.auth)
  {
    hide DoSubscribe, DoUnsubscribe, DoRegisterWallet, DoPropose, DoApprove, DoUpdateConfig;
    match call.op {
      case ProposeConfig(proposer, key, value) => ProposeRules(s, call.auth, proposer, key, value);
      case ApproveProposal(signer, id) => ApproveRules(s, call.auth, signer, id);
      case UpdateConfig(admin, key, value) => UpdateRules(s, call.auth, admin, key, value);
      case Subscribe(user, sub) => UserRules(s, call.auth, user, sub);
      case Unsubscribe(user, wallet, channel) => UserRules(s, call.auth, user, Subscription(wallet, channel, "", false));
      case RegisterWallet(user, wallet) => UserRules(s, call.auth, user, Subscription(wallet, "", "", false));
      case _ =>
    }
  }

  predicate SameRules(s: Store, t: Store) {
    t.admin == s.admin && t.signers == s.signers && t.threshold == s.threshold && t.configManagers == s.configManagers
  }

  lemma SaveRules(base: Store, id: nat, p: Proposal)
    ensures SameRules(base, SaveAndMaybeExecute(base, id, p))
  {
  }

  lemma ProposeRules(s: Store, auth: set<Address>, proposer: Address, key: Symbol, value: string)
    ensures SameRules(s, DoPropose(s, auth, proposer, key, value).0)
  {
    hide SaveAndMaybeExecute, SignerRefusal;
    var id := NextId(s);
    SaveRules(s.(nextProposal := Some(id + 1), consents := s.consents + [Consent(id, proposer, Signers(s))]), id, Proposal(key, value, [proposer], false));
  }

  lemma ApproveRules(s: Store, auth: set<Address>, signer: Address, id: nat)
    ensures SameRules(s, DoApprove(s, auth, signer, id).0)
  {
    hide SaveAndMaybeExecute, SignerRefusal;
    if id in s.proposals {
      var p := s.proposals[id];
      SaveRules(s.(consents := s.consents + [Consent(id, signer, Signers(s))]), id, p.(approvals := p.approvals + [signer]));
    }
  }

  lemma UpdateRules(s: Store, auth: set<Address>, caller: Address, key: Symbol, value: string)
    ensures SameRules(s, DoUpdateConfig(s, auth, caller, key, value).0)
  {
  }

  lemma UserRules(s: Store, auth: set<Address>, user: Address, sub: Subscription)
    ensures SameRules(s, DoSubscribe(s, auth, user, sub).0)
    ensures SameRules(s, DoUnsubscribe(s, auth, user, sub.wallet, sub.channel).0)
    ensures SameRules(s, DoRegisterWallet(s, auth, user, sub.wallet).0)
  {
  }

  // ---------------------------------------------------------------------------
  // Which proposals can still be executed
  // ---------------------------------------------------------------------------

  lemma {:induction false} DistinctCount(a: seq<Address>)
    requires Distinct(a)
    ensures |Elements(a)| == |a|
  {
    if a != [] {
      var n := |a| - 1;
      DistinctCount(a[..n]);
      assert Elements(a) == Elements(a[..n]) + {a[n]};
      assert a[n] !in a[..n];
    }
  }

  lemma Smaller<T>(a: set<T>, b: set<T>)
    requires a <= b
    ensures |a| <= |b|
  {
    assert b == a + (b - a);
  }

  /** Some signer has not approved, and the approvals together with the signers reach the threshold. */
  predicate CanReach(s: Store, id: nat)
    requires id in s.proposals
  {
    var p := s.proposals[id];
    && !p.executed
    && (exists a :: a in Signers(s) && a !in p.approvals)
    && |Elements(Signers(s)) + Elements(p.approvals)| >= Threshold(s)
  }

  /** Calls of approve_proposal for this proposal, whoever makes them. */
  predicate ApprovalsOf(calls: seq<Call>, id: nat) {
    forall i :: 0 <= i < |calls| ==> calls[i].op.ApproveProposal? && calls[i].op.id == id
  }

  /** What approving does to the proposal, with the signers and the threshold left alone. */
  lemma ApproveEffect(s: Store, auth: set<Address>, signer: Address, id: nat)
    requires id in s.proposals
    ensures var t := DoApprove(s, auth, signer, id).0;
            var p := s.proposals[id];
            && id in t.proposals && t.signers == s.signers && t.threshold == s.threshold
            && t.proposals[id] ==
               if signer in auth && signer in Signers(s) && !p.executed && signer !in p.approvals
               then Proposal(p.key, p.value, p.approvals + [signer], |p.approvals| + 1 >= Threshold(s))
               else p
  {
    hide SaveAndMaybeExecute;
    var p := s.proposals[id];
    var consented := s.(consents := s.consents + [Consent(id, signer, Signers(s))]);
    SaveProposals(consented, id, p.(approvals := p.approvals + [signer]));
    SaveRules(consented, id, p.(approvals := p.approvals + [signer]));
  }

  lemma NotReachedStep(s: Store, call: Call, id: nat)
    requires id in s.proposals && !s.proposals[id].executed && !CanReach(s, id) && Distinct(s.proposals[id].approvals)
    requires call.op.ApproveProposal? && call.op.id == id
    ensures var t := Perform(s, call).0;
            id in t.proposals && !t.proposals[id].executed && !CanReach(t, id) && Distinct(t.proposals[id].approvals)
  {
    hide DoApprove;
    var t := Perform(s, call).0;
    var p := s.proposals[id];
    ApproveEffect(s, call.auth, call.op.signer, id);
    if t.proposals[id] != p {
      var q := t.proposals[id];
      assert Elements(Signers(t)) + Elements(q.approvals) == Elements(Signers(s)) + Elements(p.approvals);
      DistinctCount(q.approvals);
      Smaller(Elements(q.approvals), Elements(Signers(s)) + Elements(p.approvals));
    }
  }

  lemma {:induction false} NotReachedRun(s: Store, calls: seq<Call>, id: nat)
    requires id in s.proposals && !s.proposals[id].executed && !CanReach(s, id) && Distinct(s.proposals[id].approvals)
    requires ApprovalsOf(calls, id)
    ensures var t := Run(s, calls);
            id in t.proposals && !t.proposals[id].executed && !CanReach(t, id) && Distinct(t.proposals[id].approvals)
  {
    hide CanReach, Distinct, Perform;
    if calls != [] {
      NotReachedRun(s, calls[..|calls| - 1], id);
      NotReachedStep(Run(s, calls[..|calls| - 1]), calls[|calls| - 1], id);
    }
  }

  function Missing(s: Store, id: nat): set<Address>
    requires id in s.proposals
  {
    Elements(Signers(s)) - Elements(s.proposals[id].approvals)
  }

  /** One of the signers who have not approved does: the proposal is executed, or fewer are left. */
  lemma ReachStep(s: Store, id: nat) returns (call: Call)
    requires id in s.proposals && CanReach(s, id) && Distinct(s.proposals[id].approvals)
    ensures call.op.ApproveProposal? && call.op.id == id
    ensures var t := Perform(s, call).0;
            && id in t.proposals && Distinct(t.proposals[id].approvals)
            && (!t.proposals[id].executed ==> CanReach(t, id) && |Missing(t, id)| < |Missing(s, id)|)
  {
    hide DoApprove;
    var a :| a in Signers(s) && a !in s.proposals[id].approvals;
    call := Call({a}, ApproveProposal(a, id));
    ApproveEffect(s, {a}, a, id);
    OneLess(s, Perform(s, call).0, id, a);
  }

  /** The same proposal with one more approval, by a signer who had not given it. */
  lemma OneLess(s: Store, t: Store, id: nat, a: Address)
    requires id in s.proposals && id in t.proposals && t.signers == s.signers && t.threshold == s.threshold
    requires CanReach(s, id) && Distinct(s.proposals[id].approvals) && a in Signers(s) && a !in s.proposals[id].approvals
    requires t.proposals[id].approvals == s.proposals[id].approvals + [a]
    requires t.proposals[id].executed == (|s.proposals[id].approvals| + 1 >= Threshold(s))
    ensures Distinct(t.proposals[id].approvals)
    ensures !t.proposals[id].executed ==> CanReach(t, id) && |Missing(t, id)| < |Missing(s, id)|
  {
    var p, q := s.proposals[id], t.proposals[id];
    assert Elements(q.approvals) == Elements(p.approvals) + {a};
    DistinctCount(q.approvals);
    if !q.executed {
      ReachSets(Elements(Signers(s)), Elements(p.approvals), a, Threshold(s));
    }
  }

  /** Every signer in turn. */
  lemma {:induction false} ReachRun(s: Store, id: nat) returns (calls: seq<Call>)
    requires id in s.proposals && CanReach(s, id) && Distinct(s.proposals[id].approvals)
    ensures ApprovalsOf(calls, id)
    ensures id in Run(s, calls).proposals && Run(s, calls).proposals[id].executed
    decreases |Missing(s, id)|
  {
    hide Perform, Run, CanReach, Distinct, Missing;
    var call := ReachStep(s, id);
    var t := Perform(s, call).0;
    if t.proposals[id].executed {
      calls := [call];
      RunOne(s, call);
    } else {
      var rest := ReachRun(t, id);
      calls := [call] + rest;
      RunCons(s, call, rest);
    }
  }

  /** As long as the approvals are too few, another signer is left, and one fewer than before. */
  lemma ReachSets(signers: set<Address>, approvals: set<Address>, a: Address, threshold: nat)
    requires a in signers && a !in approvals && |approvals + {a}| < threshold <= |signers + approvals|
    ensures var more := approvals + {a};
            && |signers + more| >= threshold
            && (exists b :: b in signers && b !in more)
            && |signers - more| < |signers - approvals|
  {
    var more := approvals + {a};
    assert signers + more == signers + approvals;
    assert signers <= more ==> signers + more == more;
    var b :| b in signers && b !in more;
    SmallerStrict(signers - more, signers - approvals);
  }

  lemma SmallerStrict<T>(a: set<T>, b: set<T>)
    requires a < b
    ensures |a| < |b|
  {
    assert b == a + (b - a);
    var x :| x in b && x !in a;
    assert x in b - a;
  }

  lemma RunOne(s: Store, call: Call)
    ensures Run(s, [call]) == Perform(s, call).0
  {
    hide Perform;
    assert Run(s, []) == s;
  }

  lemma {:induction false} RunCons(s: Store, call: Call, rest: seq<Call>)
    ensures Run(s, [call] + rest) == Run(Perform(s, call).0, rest)
  {
    hide Perform;
    var all := [call] + rest;
    if rest == [] {
      assert all == [call];
      RunOne(s, call);
    } else {
      var front := rest[..|rest| - 1];
      RunCons(s, call, front);
      assert all[..|all| - 1] == [call] + front;
    }
  }

  /**
    In a reachable state, and with the signers left as they are, a pending proposal can be
    brought to execution exactly when some signer has not approved it and the signers
    together with those who approved are at least as many, counted once each, as the threshold.
   */
  lemma ExecutableExactly(history: seq<Call>, id: nat)
    requires id in Run(Empty, history).proposals && !Run(Empty, history).proposals[id].executed
    ensures var s := Run(Empty, history);
            CanReach(s, id) <==> exists calls :: ApprovalsOf(calls, id) && id in Run(s, calls).proposals && Run(s, calls).proposals[id].executed
  {
    hide Run, CanReach, Distinct, ApprovalsOf, Consented, WrittenOnce, NeverWritten;
    var s := Run(Empty, history);
    Governance(history);
    assert ProposalOk(s, id);
    if CanReach(s, id) {
      var calls := ReachRun(s, id);
    } else {
      forall calls | ApprovalsOf(calls, id)
        ensures id in Run(s, calls).proposals && !Run(s, calls).proposals[id].executed
      {
        NotReachedRun(s, calls, id);
      }
    }
  }

  /** The proposal has been executed, or approvals can still bring it to execution. */
  ghost predicate Executable(s: Store, id: nat) {
    id in s.proposals
    && (s.proposals[id].executed
        || exists calls :: ApprovalsOf(calls, id) && id in Run(s, calls).proposals && Run(s, calls).proposals[id].executed)
  }

  /** What propose_config leaves of the new proposal. */
  lemma ProposeEffect(s: Store, auth: set<Address>, proposer: Address, key: Symbol, value: string)
    requires DoPropose(s, auth, proposer, key, value).1.Opened?
    ensures var (t, answer) := DoPropose(s, auth, proposer, key, value);
            && proposer in Signers(s) && t.signers == s.signers && t.threshold == s.threshold
            && answer.id in t.proposals
            && t.proposals[answer.id] == Proposal(key, value, [proposer], 1 >= Threshold(s))
  {
    hide SaveAndMaybeExecute;
    var id := NextId(s);
    var base := s.(nextProposal := Some(id + 1), consents := s.consents + [Consent(id, proposer, Signers(s))]);
    SaveProposals(base, id, Proposal(key, value, [proposer], false));
    SaveRules(base, id, Proposal(key, value, [proposer], false));
  }

  /** Right after it was opened: executed at once, or within reach, exactly with enough different signers. */
  lemma OpenedReach(s: Store, t: Store, id: nat, proposer: Address)
    requires t.signers == s.signers && t.threshold == s.threshold && proposer in Signers(s)
    requires id in t.proposals && t.proposals[id].approvals == [proposer] && t.proposals[id].executed == (1 >= Threshold(s))
    ensures t.proposals[id].executed || CanReach(t, id) <==> |Elements(Signers(s))| >= Threshold(s)
  {
    var signers := Elements(Signers(s));
    assert signers + Elements([proposer]) == signers;
    Smaller({proposer}, signers);
    if signers == {proposer} {
      assert |signers| == 1;
    } else {
      var other :| other in signers && other != proposer;
    }
  }

  /**
    In a reachable state, a proposal opened now can be executed if and only if the signers,
    counted once each, are at least as many as the threshold.
   */
  lemma OpenedExecutable(history: seq<Call>, auth: set<Address>, proposer: Address, key: Symbol, value: string)
    requires DoPropose(Run(Empty, history), auth, proposer, key, value).1.Opened?
    ensures var s := Run(Empty, history);
            var (t, answer) := DoPropose(s, auth, proposer, key, value);
            Executable(t, answer.id) <==> |Elements(Signers(s))| >= Threshold(s)
  {
    hide DoPropose, CanReach, ApprovalsOf, Signers, Threshold, Elements;
    var s := Run(Empty, history);
    var (t, answer) := DoPropose(s, auth, proposer, key, value);
    var call := Call(auth, ProposeConfig(proposer, key, value));
    assert (history + [call])[..|history|] == history;
    assert Run(Empty, history + [call]) == t;
    hide Run, Perform;
    ProposeEffect(s, auth, proposer, key, value);
    OpenedReach(s, t, answer.id, proposer);
    if !t.proposals[answer.id].executed {
      ExecutableExactly(history + [call], answer.id);
    }
  }

  /**
    set_signers counts entries, not signers. It accepts any threshold up to the number of
    entries, and when repetitions leave fewer signers than the threshold, no proposal opened
    under this setting can ever be executed.
   */
  lemma RepeatedSigner(history: seq<Call>, auth: set<Address>, admin: Address, signers: seq<Address>, threshold: nat,
                       proposing: set<Address>, proposer: Address, key: Symbol, value: string)
    requires Run(Empty, history).admin == Some(admin) && admin in auth
    requires |Elements(signers)| < threshold <= |signers|
    ensures var (s, answer) := DoSetSigners(Run(Empty, history), auth, admin, signers, threshold);
            && answer == Done && Signers(s) == signers && Threshold(s) == threshold
            && var (t, result) := DoPropose(s, proposing, proposer, key, value);
               result.Opened? ==> !Executable(t, result.id)
  {
    hide DoPropose, Executable, Elements;
    var call := Call(auth, SetSigners(admin, signers, threshold));
    var s := DoSetSigners(Run(Empty, history), auth, admin, signers, threshold).0;
    assert (history + [call])[..|history|] == history;
    assert Run(Empty, history + [call]) == s;
    if DoPropose(s, proposing, proposer, key, value).1.Opened? {
      OpenedExecutable(history + [call], proposing, proposer, key, value);
    }
  }

  // ---------------------------------------------------------------------------
  // Wallets and subscriptions
  // ---------------------------------------------------------------------------

  predicate WalletsOk(s: Store) {
    && (forall user :: user in s.wallets ==> Distinct(s.wallets[user]))
    && (forall k :: k in s.subscriptions ==>
          k.1 in Wallets(s, k.0) && s.subscriptions[k].wallet == k.1 && s.subscriptions[k].channel == k.2)
  }

  lemma WalletsStep(s: Store, call: Call)
    requires WalletsOk(s)
    ensures WalletsOk(Perform(s, call).0)
  {
    hide DoPropose, DoApprove, DoUpdateConfig, DoSetSigners, ByAdmin, WalletsOk, DoSubscribe, DoUnsubscribe, DoRegisterWallet;
    var t := Perform(s, call).0;
    match call.op {
      case Subscribe(user, sub) => SubscribeWallets(s, call.auth, user, sub);
      case Unsubscribe(user, wallet, channel) => UnsubscribeWallets(s, call.auth, user, wallet, channel);
      case RegisterWallet(user, wallet) => RegisterWallets(s, call.auth, user, wallet);
      case _ =>
        OthersLeaveWallets(s, call);
        SameWallets(s, t);
    }
  }

  lemma SameWallets(s: Store, t: Store)
    requires WalletsOk(s) && t.wallets == s.wallets && t.subscriptions == s.subscriptions
    ensures WalletsOk(t)
  {
  }

  lemma OthersLeaveWallets(s: Store, call: Call)
    requires !call.op.Subscribe? && !call.op.Unsubscribe? && !call.op.RegisterWallet?
    ensures Perform(s, call).0.wallets == s.wallets && Perform(s, call).0.subscriptions == s.subscriptions
  {
    hide DoSubscribe, DoUnsubscribe, DoRegisterWallet, DoPropose, DoApprove, DoUpdateConfig, DoSetSigners, AdminRefusal;
    match call.op {
      case ProposeConfig(proposer, key, value) => ProposeLeavesWallets(s, call.auth, proposer, key, value);
      case ApproveProposal(signer, id) => ApproveLeavesWallets(s, call.auth, signer, id);
      case UpdateConfig(admin, key, value) => UpdateLeavesWallets(s, call.auth, admin, key, value);
      case SetSigners(admin, signers, threshold) => SignersLeaveWallets(s, call.auth, admin, signers, threshold);
      case _ =>
    }
  }

  predicate KeepsWallets(s: Store, t: Store) {
    t.wallets == s.wallets && t.subscriptions == s.subscriptions
  }

  lemma ProposeLeavesWallets(s: Store, auth: set<Address>, proposer: Address, key: Symbol, value: string)
    ensures KeepsWallets(s, DoPropose(s, auth, proposer, key, value).0)
  {
    hide SignerRefusal;
  }

  lemma ApproveLeavesWallets(s: Store, auth: set<Address>, signer: Address, id: nat)
    ensures KeepsWallets(s, DoApprove(s, auth, signer, id).0)
  {
    hide SignerRefusal;
  }

  lemma UpdateLeavesWallets(s: Store, auth: set<Address>, caller: Address, key: Symbol, value: string)
    ensures KeepsWallets(s, DoUpdateConfig(s, auth, caller, key, value).0)
  {
  }

  lemma SignersLeaveWallets(s: Store, auth: set<Address>, caller: Address, signers: seq<Address>, threshold: nat)
    ensures KeepsWallets(s, DoSetSigners(s, auth, caller, signers, threshold).0)
  {
    hide AdminRefusal;
  }

  lemma SubscribeWallets(s: Store, auth: set<Address>, user: Address, sub: Subscription)
    requires WalletsOk(s)
    ensures WalletsOk(DoSubscribe(s, auth, user, sub).0)
  {
    hide Distinct;
  }

  lemma UnsubscribeWallets(s: Store, auth: set<Address>, user: Address, wallet: Address, channel: Symbol)
    requires WalletsOk(s)
    ensures WalletsOk(DoUnsubscribe(s, auth, user, wallet, channel).0)
  {
    hide Distinct;
  }

  lemma RegisterWallets(s: Store, auth: set<Address>, user: Address, wallet: Address)
    requires WalletsOk(s)
    ensures WalletsOk(DoRegisterWallet(s, auth, user, wallet).0)
  {
  }

  lemma {:induction false} WalletsRun(s: Store, calls: seq<Call>)
    requires WalletsOk(s)
    ensures WalletsOk(Run(s, calls))
  {
    hide WalletsOk, Perform;
    if calls != [] {
      WalletsRun(s, calls[..|calls| - 1]);
      WalletsStep(Run(s, calls[..|calls| - 1]), calls[|calls| - 1]);
    }
  }

  /**
    In every reachable state a user's wallets are listed once each, and every subscription
    is for a wallet its user has registered and is stored under its own wallet and channel.
   */
  lemma WalletsSound(calls: seq<Call>)
    ensures WalletsOk(Run(Empty, calls))
  {
    WalletsRun(Empty, calls);
  }
}
