/**
  The on-chain registry of contracts/alert_registry/src/lib.rs as a transition system over
  its storage. A call that fails, panics or traps leaves the storage as it was.
 */
module AlertRegistry {
  import opened Wrappers

  type Address = string
  type Symbol = string

  const U32_LIMIT := 0x1_0000_0000

  datatype Proposal = Proposal(key: Symbol, value: string, approvals: seq<Address>, executed: bool)
  datatype Subscription = Subscription(wallet: Address, channel: Symbol, target: string, active: bool)

  datatype Error =
    | Unauthorized | AlreadyInitialized | NotInitialized | WalletNotRegistered | SubscriptionNotFound
    | InvalidThreshold | ProposalNotFound | AlreadyApproved | ProposalAlreadyExecuted

  /** History: a configuration write, by a proposal or directly, with the approvals and threshold of that moment. */
  datatype Write = Write(origin: Option<nat>, key: Symbol, value: string, approvals: seq<Address>, threshold: nat)

  /** History: an approval, with the signers of that moment. */
  datatype Consent = Consent(id: nat, signer: Address, signers: seq<Address>)

  /** Instance storage; the last two components are history. */
  datatype Store = Store(
    admin: Option<Address>, signers: Option<seq<Address>>, threshold: Option<nat>, nextProposal: Option<nat>,
    proposals: map<nat, Proposal>, configManagers: set<Address>, config: map<Symbol, string>,
    listeners: map<(Address, Symbol), string>, wallets: map<Address, seq<Address>>,
    subscriptions: map<(Address, Address, Symbol), Subscription>,
    writes: seq<Write>, consents: seq<Consent>)

  const Empty := Store(None, None, None, None, map[], {}, map[], map[], map[], map[], [], [])

  datatype Answer = Done | Opened(id: nat) | Failed(error: Error) | Panicked(error: Error) | Trapped

  datatype Op =
    | Initialize(admin: Address)
    | SetAdmin(admin: Address, newAdmin: Address)
    | UpdateConfig(admin: Address, key: Symbol, value: string)
    | GrantRole(admin: Address, account: Address)
    | RevokeRole(admin: Address, account: Address)
    | SetSigners(admin: Address, signers: seq<Address>, threshold: nat)
    | ProposeConfig(proposer: Address, key: Symbol, value: string)
    | ApproveProposal(signer: Address, id: nat)
    | RegisterListener(user: Address, channel: Symbol, target: string)
    | RegisterWallet(user: Address, wallet: Address)
    | Subscribe(user: Address, subscription: Subscription)
    | Unsubscribe(user: Address, wallet: Address, channel: Symbol)

  /** A call with the addresses that have authorized it. */
  datatype Call = Call(auth: set<Address>, op: Op)

  function Signers(s: Store): seq<Address> {
    if s.signers.Some? then s.signers.value else []
  }

  function Threshold(s: Store): nat {
    if s.threshold.Some? then s.threshold.value else 1
  }

  function NextId(s: Store): nat {
    if s.nextProposal.Some? then s.nextProposal.value else 0
  }

  function Wallets(s: Store, user: Address): seq<Address> {
    if user in s.wallets then s.wallets[user] else []
  }

  // ---------------------------------------------------------------------------
  // The entry points
  // ---------------------------------------------------------------------------

  /** require_admin: None when the caller is the admin and has authorized the call. */
  function AdminRefusal(s: Store, auth: set<Address>, caller: Address): Option<Answer> {
    if caller !in auth then Some(Trapped)
    else if s.admin.None? then Some(Failed(NotInitialized))
    else if s.admin.value != caller then Some(Panicked(Unauthorized))
    else None
  }

  /** require_signer */
  function SignerRefusal(s: Store, auth: set<Address>, caller: Address): Option<Answer> {
    if caller !in auth then Some(Trapped)
    else if caller !in Signers(s) then Some(Panicked(Unauthorized))
    else None
  }

  function WriteConfig(s: Store, origin: Option<nat>, key: Symbol, value: string, approvals: seq<Address>): Store {
    s.(config := s.config[key := value], writes := s.writes + [Write(origin, key, value, approvals, Threshold(s))])
  }

  function SaveAndMaybeExecute(s: Store, id: nat, p: Proposal): Store {
    if |p.approvals| >= Threshold(s)
    then WriteConfig(s, Some(id), p.key, p.value, p.approvals).(proposals := s.proposals[id := p.(executed := true)])
    else s.(proposals := s.proposals[id := p])
  }

  function DoUpdateConfig(s: Store, auth: set<Address>, caller: Address, key: Symbol, value: string): (Store, Answer) {
    if caller !in auth then (s, Trapped)
    else if s.admin.None? then (s, Failed(NotInitialized))
    else if !(caller == s.admin.value || caller in s.configManagers) || Threshold(s) > 1 then (s, Panicked(Unauthorized))
    else (WriteConfig(s, None, key, value, []), Done)
  }

  function DoSetSigners(s: Store, auth: set<Address>, caller: Address, signers: seq<Address>, threshold: nat): (Store, Answer) {
    var refusal := AdminRefusal(s, auth, caller);
    if refusal.Some? then (s, refusal.value)
    else if threshold == 0 || threshold > |signers| then (s, Failed(InvalidThreshold))
    else (s.(signers := Some(signers), threshold := Some(threshold)), Done)
  }

  /** The id is a u32 and the build checks overflow: past the last one the call traps. */
  function DoPropose(s: Store, auth: set<Address>, proposer: Address, key: Symbol, value: string): (Store, Answer) {
    var refusal := SignerRefusal(s, auth, proposer);
    if refusal.Some? then (s, refusal.value)
    else
      var id := NextId(s);
      if id + 1 >= U32_LIMIT then (s, Trapped)
      else
        var begun := s.(nextProposal := Some(id + 1), consents := s.consents + [Consent(id, proposer, Signers(s))]);
        (SaveAndMaybeExecute(begun, id, Proposal(key, value, [proposer], false)), Opened(id))
  }

  function DoApprove(s: Store, auth: set<Address>, signer: Address, id: nat): (Store, Answer) {
    var refusal := SignerRefusal(s, auth, signer);
    if refusal.Some? then (s, refusal.value)
    else if id !in s.proposals then (s, Failed(ProposalNotFound))
    else
      var p := s.proposals[id];
      if p.executed then (s, Failed(ProposalAlreadyExecuted))
      else if signer in p.approvals then (s, Failed(AlreadyApproved))
      else
        var consented := s.(consents := s.consents + [Consent(id, signer, Signers(s))]);
        (SaveAndMaybeExecute(consented, id, p.(approvals := p.approvals + [signer])), Done)
  }

  function DoSubscribe(s: Store, auth: set<Address>, user: Address, sub: Subscription): (Store, Answer) {
    if user !in auth then (s, Trapped)
    else if sub.wallet !in Wallets(s, user) then (s, Failed(WalletNotRegistered))
    else (s.(subscriptions := s.subscriptions[(user, sub.wallet, sub.channel) := sub]), Done)
  }

  function DoUnsubscribe(s: Store, auth: set<Address>, user: Address, wallet: Address, channel: Symbol): (Store, Answer) {
    if user !in auth then (s, Trapped)
    else if (user, wallet, channel) !in s.subscriptions then (s, Failed(SubscriptionNotFound))
    else (s.(subscriptions := s.subscriptions - {(user, wallet, channel)}), Done)
  }

  function DoRegisterWallet(s: Store, auth: set<Address>, user: Address, wallet: Address): (Store, Answer) {
    if user !in auth then (s, Trapped)
    else if wallet in Wallets(s, user) then (s, Done)
    else (s.(wallets := s.wallets[user := Wallets(s, user) + [wallet]]), Done)
  }

  function ByAdmin(s: Store, auth: set<Address>, caller: Address, changed: Store): (Store, Answer) {
    var refusal := AdminRefusal(s, auth, caller);
    if refusal.Some? then (s, refusal.value) else (changed, Done)
  }

  function Perform(s: Store, call: Call): (Store, Answer) {
    var auth := call.auth;
    match call.op
    case Initialize(admin) =>
      if s.admin.Some? then (s, Failed(AlreadyInitialized))
      else if admin !in auth then (s, Trapped)
      else (s.(admin := Some(admin)), Done)
    case SetAdmin(admin, newAdmin) => ByAdmin(s, auth, admin, s.(admin := Some(newAdmin)))
    case UpdateConfig(admin, key, value) => DoUpdateConfig(s, auth, admin, key, value)
    case GrantRole(admin, account) => ByAdmin(s, auth, admin, s.(configManagers := s.configManagers + {account}))
    case RevokeRole(admin, account) => ByAdmin(s, auth, admin, s.(configManagers := s.configManagers - {account}))
    case SetSigners(admin, signers, threshold) => DoSetSigners(s, auth, admin, signers, threshold)
    case ProposeConfig(proposer, key, value) => DoPropose(s, auth, proposer, key, value)
    case ApproveProposal(signer, id) => DoApprove(s, auth, signer, id)
    case RegisterListener(user, channel, target) =>
      if user !in auth then (s, Trapped) else (s.(listeners := s.listeners[(user, channel) := target]), Done)
    case RegisterWallet(user, wallet) => DoRegisterWallet(s, auth, user, wallet)
    case Subscribe(user, sub) => DoSubscribe(s, auth, user, sub)
    case Unsubscribe(user, wallet, channel) => DoUnsubscribe(s, auth, user, wallet, channel)
  }

  function Run(s: Store, calls: seq<Call>): Store {
    if calls == [] then s else Perform(Run(s, calls[..|calls| - 1]), calls[|calls| - 1]).0
  }

  // ---------------------------------------------------------------------------
  // Governance in every reachable state
  // ---------------------------------------------------------------------------

  predicate Distinct(a: seq<Address>) {
    forall i, j :: 0 <= i < j < |a| ==> a[i] != a[j]
  }

  /** The approval was given by a signer of that moment. */
  ghost predicate Consented(s: Store, id: nat, signer: Address) {
    exists i :: 0 <= i < |s.consents| && s.consents[i].id == id && s.consents[i].signer == signer && signer in s.consents[i].signers
  }

  /** Write i came from the proposal, carried its key and value, and had the approvals it needed then. */
  predicate WroteProperly(w: Write, id: nat, p: Proposal) {
    w == Write(Some(id), p.key, p.value, p.approvals, w.threshold) && |p.approvals| >= w.threshold
  }

  ghost predicate WrittenOnce(s: Store, id: nat) {
    exists i :: 0 <= i < |s.writes| && id in s.proposals && WroteProperly(s.writes[i], id, s.proposals[id])
      && forall j :: 0 <= j < |s.writes| && s.writes[j].origin == Some(id) ==> j == i
  }

  ghost predicate NeverWritten(s: Store, id: nat) {
    forall j :: 0 <= j < |s.writes| ==> s.writes[j].origin != Some(id)
  }

  ghost predicate ProposalOk(s: Store, id: nat)
    requires id in s.proposals
  {
    var p := s.proposals[id];
    && Distinct(p.approvals)
    && (forall i :: 0 <= i < |p.approvals| ==> Consented(s, id, p.approvals[i]))
    && (if p.executed then WrittenOnce(s, id) else NeverWritten(s, id))
  }

  ghost predicate Governed(s: Store) {
    && (forall id :: id in s.proposals <==> 0 <= id < NextId(s))
    && (forall id :: id in s.proposals ==> ProposalOk(s, id))
    && (forall id :: id !in s.proposals && 0 <= id ==> NeverWritten(s, id))
    && (s.threshold.Some? ==> 1 <= s.threshold.value <= |Signers(s)|)
  }

  /** The parts of storage the proposals are about. */
  predicate SameGovernance(s: Store, t: Store) {
    && t.nextProposal == s.nextProposal && t.proposals == s.proposals && t.writes == s.writes && t.consents == s.consents
  }

  lemma SameKeeps(s: Store, t: Store)
    requires Governed(s) && SameGovernance(s, t) && (t.threshold.Some? ==> 1 <= t.threshold.value <= |Signers(t)|)
    ensures Governed(t)
  {
    assert forall id :: id in s.proposals ==> ProposalOk(s, id) == ProposalOk(t, id);
    assert forall id :: NeverWritten(s, id) == NeverWritten(t, id);
  }

  lemma ConsentedGrows(s: Store, c: Consent, t: Store, id: nat, signer: Address)
    requires t.consents == s.consents + [c] && Consented(s, id, signer)
    ensures Consented(t, id, signer)
  {
    var i :| 0 <= i < |s.consents| && s.consents[i].id == id && s.consents[i].signer == signer && signer in s.consents[i].signers;
    assert t.consents[i] == s.consents[i];
  }

  /** A proposal that the step does not touch stays as it should be. */
  lemma OtherKeeps(s: Store, t: Store, id: nat)
    requires id in s.proposals && ProposalOk(s, id) && id in t.proposals && t.proposals[id] == s.proposals[id]
    requires t.consents == s.consents || (|t.consents| > 0 && t.consents == s.consents + [t.consents[|t.consents| - 1]])
    requires t.writes == s.writes || (|t.writes| > 0 && t.writes == s.writes + [t.writes[|t.writes| - 1]] && t.writes[|t.writes| - 1].origin != Some(id))
    ensures ProposalOk(t, id)
  {
    hide Consented, Distinct, WroteProperly;
    forall i | 0 <= i < |s.proposals[id].approvals|
      ensures Consented(t, id, s.proposals[id].approvals[i])
    {
      assert Consented(s, id, s.proposals[id].approvals[i]);
      ConsentedSame(s, t, id, s.proposals[id].approvals[i]);
    }
    if s.proposals[id].executed {
      var i :| 0 <= i < |s.writes| && WroteProperly(s.writes[i], id, s.proposals[id])
        && forall j :: 0 <= j < |s.writes| && s.writes[j].origin == Some(id) ==> j == i;
      assert t.writes[i] == s.writes[i];
      assert WrittenOnce(t, id);
    }
  }

  lemma ConsentedSame(s: Store, t: Store, id: nat, signer: Address)
    requires t.consents == s.consents || (|t.consents| > 0 && t.consents == s.consents + [t.consents[|t.consents| - 1]])
    requires Consented(s, id, signer)
    ensures Consented(t, id, signer)
  {
    if t.consents != s.consents {
      ConsentedGrows(s, t.consents[|t.consents| - 1], t, id, signer);
    }
  }

  /** Saving a proposal with one more, new, signer: the common end of propose and approve. */
  lemma SaveKeeps(s: Store, base: Store, id: nat, p: Proposal, signer: Address)
    requires Governed(s) && signer in Signers(s)
    requires base == s.(nextProposal := base.nextProposal, consents := s.consents + [Consent(id, signer, Signers(s))])
    requires NextId(base) == if id in s.proposals then NextId(s) else NextId(s) + 1
    requires id <= NextId(s) && NeverWritten(s, id) && !p.executed
    requires p.approvals != [] && p.approvals[|p.approvals| - 1] == signer && Distinct(p.approvals)
    requires forall i :: 0 <= i < |p.approvals| - 1 ==> Consented(s, id, p.approvals[i])
    ensures Governed(SaveAndMaybeExecute(base, id, p))
  {
    hide Consented, Distinct, ProposalOk, SaveAndMaybeExecute;
    var t := SaveAndMaybeExecute(base, id, p);
    SaveFields(base, id, p);
    forall k | k in s.proposals && k != id
      ensures ProposalOk(t, k)
    {
      OtherKeeps(s, t, k);
    }
    SavedOk(s, base, id, p, signer);
    forall k | k !in t.proposals && 0 <= k
      ensures NeverWritten(t, k)
    {
      assert NeverWritten(s, k);
    }
  }

  lemma SaveFields(base: Store, id: nat, p: Proposal)
    ensures var t := SaveAndMaybeExecute(base, id, p);
            && id in t.proposals && t.proposals == base.proposals[id := t.proposals[id]]
            && t.nextProposal == base.nextProposal && t.consents == base.consents
            && t.signers == base.signers && t.threshold == base.threshold
            && (t.writes == base.writes
                || (|t.writes| > 0 && t.writes == base.writes + [t.writes[|t.writes| - 1]] && t.writes[|t.writes| - 1].origin == Some(id)))
  {
  }

  lemma SavedOk(s: Store, base: Store, id: nat, p: Proposal, signer: Address)
    requires signer in Signers(s) && NeverWritten(s, id) && !p.executed
    requires base == s.(nextProposal := base.nextProposal, consents := s.consents + [Consent(id, signer, Signers(s))])
    requires p.approvals != [] && p.approvals[|p.approvals| - 1] == signer && Distinct(p.approvals)
    requires forall i :: 0 <= i < |p.approvals| - 1 ==> Consented(s, id, p.approvals[i])
    ensures ProposalOk(SaveAndMaybeExecute(base, id, p), id)
  {
    hide Distinct;
    var t := SaveAndMaybeExecute(base, id, p);
    forall i | 0 <= i < |p.approvals|
      ensures Consented(t, id, p.approvals[i])
    {
      if i < |p.approvals| - 1 {
        ConsentedSame(s, t, id, p.approvals[i]);
      } else {
        assert t.consents[|s.consents|] == Consent(id, signer, Signers(s));
      }
    }
    if |p.approvals| >= Threshold(base) {
      assert WroteProperly(t.writes[|s.writes|], id, t.proposals[id]);
      assert WrittenOnce(t, id);
    }
  }

  lemma ProposeKeeps(s: Store, auth: set<Address>, proposer: Address, key: Symbol, value: string)
    requires Governed(s)
    ensures Governed(DoPropose(s, auth, proposer, key, value).0)
  {
    hide Governed, SaveAndMaybeExecute, NeverWritten, Consented;
    var id := NextId(s);
    if SignerRefusal(s, auth, proposer).None? && id + 1 < U32_LIMIT {
      var begun := s.(nextProposal := Some(id + 1), consents := s.consents + [Consent(id, proposer, Signers(s))]);
      FreshId(s);
      SaveKeeps(s, begun, id, Proposal(key, value, [proposer], false), proposer);
    }
  }

  lemma FreshId(s: Store)
    requires Governed(s)
    ensures NextId(s) !in s.proposals && NeverWritten(s, NextId(s))
  {
  }

  lemma ApproveKeeps(s: Store, auth: set<Address>, signer: Address, id: nat)
    requires Governed(s)
    ensures Governed(DoApprove(s, auth, signer, id).0)
  {
    hide SaveAndMaybeExecute, NeverWritten, Consented;
    if SignerRefusal(s, auth, signer).None? && id in s.proposals && !s.proposals[id].executed && signer !in s.proposals[id].approvals {
      var p := s.proposals[id];
      assert ProposalOk(s, id);
      var consented := s.(consents := s.consents + [Consent(id, signer, Signers(s))]);
      SaveKeeps(s, consented, id, p.(approvals := p.approvals + [signer]), signer);
    }
  }

  lemma UpdateKeeps(s: Store, auth: set<Address>, caller: Address, key: Symbol, value: string)
    requires Governed(s)
    ensures Governed(DoUpdateConfig(s, auth, caller, key, value).0)
  {
    hide Consented, Distinct, WroteProperly;
    var t := DoUpdateConfig(s, auth, caller, key, value).0;
    if t != s {
      forall k | k in s.proposals
        ensures ProposalOk(t, k)
      {
        OtherKeeps(s, t, k);
      }
      assert forall k :: NeverWritten(s, k) ==> NeverWritten(t, k);
    }
  }

  lemma PerformKeeps(s: Store, call: Call)
    requires Governed(s)
    ensures Governed(Perform(s, call).0)
  {
    hide Governed, DoPropose, DoApprove, DoUpdateConfig;
    match call.op {
      case ProposeConfig(proposer, key, value) => ProposeKeeps(s, call.auth, proposer, key, value);
      case ApproveProposal(signer, id) => ApproveKeeps(s, call.auth, signer, id);
      case UpdateConfig(admin, key, value) => UpdateKeeps(s, call.auth, admin, key, value);
      case SetSigners(admin, signers, threshold) =>
        ThresholdOk(s);
        SetSignersFields(s, call.auth, admin, signers, threshold);
        SameKeeps(s, Perform(s, call).0);
      case _ =>
        ThresholdOk(s);
        OtherFields(s, call);
        SameKeeps(s, Perform(s, call).0);
    }
  }

  lemma SetSignersFields(s: Store, auth: set<Address>, caller: Address, signers: seq<Address>, threshold: nat)
    ensures var t := DoSetSigners(s, auth, caller, signers, threshold).0;
            && SameGovernance(s, t) && t.config == s.config
            && (t == s || (1 <= threshold <= |signers| && t.threshold == Some(threshold) && Signers(t) == signers))
  {
  }

  /** The calls that are neither about proposals nor about signers. */
  lemma OtherFields(s: Store, call: Call)
    requires !call.op.ProposeConfig? && !call.op.ApproveProposal? && !call.op.UpdateConfig? && !call.op.SetSigners?
    ensures var t := Perform(s, call).0;
            SameGovernance(s, t) && t.signers == s.signers && t.threshold == s.threshold && t.config == s.config
  {
    hide DoSubscribe, DoUnsubscribe, DoRegisterWallet, ByAdmin, DoPropose, DoApprove, DoUpdateConfig, DoSetSigners;
    match call.op {
      case Subscribe(user, sub) => SubscribeFields(s, call.auth, user, sub);
      case Unsubscribe(user, wallet, channel) => SubscribeFields(s, call.auth, user, Subscription(wallet, channel, "", false));
      case RegisterWallet(user, wallet) => RegisterFields(s, call.auth, user, wallet);
      case SetAdmin(admin, newAdmin) => AdminFields(s, call.auth, admin, s.(admin := Some(newAdmin)));
      case GrantRole(admin, account) => AdminFields(s, call.auth, admin, s.(configManagers := s.configManagers + {account}));
      case RevokeRole(admin, account) => AdminFields(s, call.auth, admin, s.(configManagers := s.configManagers - {account}));
      case _ =>
    }
  }

  predicate SameForProposals(s: Store, t: Store) {
    SameGovernance(s, t) && t.signers == s.signers && t.threshold == s.threshold && t.config == s.config
  }

  lemma SubscribeFields(s: Store, auth: set<Address>, user: Address, sub: Subscription)
    ensures SameForProposals(s, DoSubscribe(s, auth, user, sub).0)
    ensures SameForProposals(s, DoUnsubscribe(s, auth, user, sub.wallet, sub.channel).0)
  {
  }

  lemma RegisterFields(s: Store, auth: set<Address>, user: Address, wallet: Address)
    ensures SameForProposals(s, DoRegisterWallet(s, auth, user, wallet).0)
  {
  }

  lemma AdminFields(s: Store, auth: set<Address>, caller: Address, changed: Store)
    requires SameForProposals(s, changed)
    ensures SameForProposals(s, ByAdmin(s, auth, caller, changed).0)
  {
  }

  lemma ThresholdOk(s: Store)
    requires Governed(s)
    ensures s.threshold.Some? ==> 1 <= s.threshold.value <= |Signers(s)|
  {
  }

  lemma {:induction false} RunKeeps(s: Store, calls: seq<Call>)
    requires Governed(s)
    ensures Governed(Run(s, calls))
  {
    hide Governed, Perform;
    if calls != [] {
      RunKeeps(s, calls[..|calls| - 1]);
      PerformKeeps(Run(s, calls[..|calls| - 1]), calls[|calls| - 1]);
    }
  }

  /**
    In every reachable state the approvals of a proposal are distinct, each given by an
    address that was a signer at that moment; an executed proposal has made exactly one
    write, of its own key and value, with approvals that met the threshold then in force;
    a pending one has made none.
   */
  lemma Governance(calls: seq<Call>)
    ensures Governed(Run(Empty, calls))
  {
    assert Governed(Empty);
    RunKeeps(Empty, calls);
  }
}
