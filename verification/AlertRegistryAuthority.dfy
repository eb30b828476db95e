/**
  Who can do what on the registry: which calls are accepted, stated by what was done before,
  and who writes configuration without a proposal.
 */
module AlertRegistryAuthority {
  import opened Wrappers
  import opened AlertRegistry

  /** The address a call speaks for. */
  function Caller(op: Op): Address {
    match op
    case Initialize(admin) => admin
    case SetAdmin(admin, _) => admin
    case UpdateConfig(admin, _, _) => admin
    case GrantRole(admin, _) => admin
    case RevokeRole(admin, _) => admin
    case SetSigners(admin, _, _) => admin
    case ProposeConfig(proposer, _, _) => proposer
    case ApproveProposal(signer, _) => signer
    case RegisterListener(user, _, _) => user
    case RegisterWallet(user, _) => user
    case Subscribe(user, _) => user
    case Unsubscribe(user, _, _) => user
  }

  predicate Accepted(s: Store, call: Call) {
    Perform(s, call).1.Done? || Perform(s, call).1.Opened?
  }

  /** Calls that only the admin may make; update_config has its own rule. */
  predicate ForAdmin(op: Op) {
    op.SetAdmin? || op.GrantRole? || op.RevokeRole? || op.SetSigners?
  }

  predicate ForSigner(op: Op) {
    op.ProposeConfig? || op.ApproveProposal?
  }

  predicate MayConfigure(s: Store, a: Address) {
    s.admin == Some(a) || (s.admin.Some? && a in s.configManagers)
  }

  /** What a call needs beside the authorization of its caller. */
  predicate Permitted(s: Store, op: Op) {
    && (op.Initialize? ==> s.admin == None)
    && (ForAdmin(op) ==> s.admin == Some(Caller(op)))
    && (ForSigner(op) ==> Caller(op) in Signers(s))
    && (op.UpdateConfig? ==> MayConfigure(s, Caller(op)) && Threshold(s) <= 1)
    && (op.SetSigners? ==> 1 <= op.threshold <= |op.signers|)
    && (op.ProposeConfig? ==> NextId(s) + 1 < 0x1_0000_0000)
    && (op.ApproveProposal? ==> op.id in s.proposals && !s.proposals[op.id].executed && Caller(op) !in s.proposals[op.id].approvals)
    && (op.Subscribe? ==> op.subscription.wallet in Wallets(s, Caller(op)))
    && (op.Unsubscribe? ==> (Caller(op), op.wallet, op.channel) in s.subscriptions)
  }

  /** A call is accepted exactly when its caller has authorized it and it is permitted; otherwise nothing changes. */
  lemma AcceptedExactly(s: Store, call: Call)
    ensures Accepted(s, call) <==> Caller(call.op) in call.auth && Permitted(s, call.op)
    ensures !Accepted(s, call) ==> Perform(s, call).0 == s
  {
    hide SaveAndMaybeExecute, WriteConfig;
  }

  /** Every refusal, by its reason. */
  lemma RefusalsExactly(s: Store, call: Call)
    ensures var (op, answer, caller) := (call.op, Perform(s, call).1, Caller(call.op));
            && (answer == Trapped <==>
                  if caller in call.auth then op.ProposeConfig? && caller in Signers(s) && NextId(s) + 1 >= 0x1_0000_0000
                  else !(op.Initialize? && s.admin.Some?))
            && (answer == Failed(AlreadyInitialized) <==> op.Initialize? && s.admin.Some?)
            && (answer == Failed(NotInitialized) <==> caller in call.auth && (ForAdmin(op) || op.UpdateConfig?) && s.admin.None?)
            && (answer == Panicked(Unauthorized) <==>
                  && caller in call.auth
                  && ((ForAdmin(op) && s.admin.Some? && s.admin != Some(caller))
                      || (op.UpdateConfig? && s.admin.Some? && (!MayConfigure(s, caller) || Threshold(s) > 1))
                      || (ForSigner(op) && caller !in Signers(s))))
  {
    hide SaveAndMaybeExecute, WriteConfig;
  }

  lemma OtherRefusals(s: Store, call: Call)
    ensures var (op, answer, caller) := (call.op, Perform(s, call).1, Caller(call.op));
            && (answer == Failed(InvalidThreshold) <==>
                  && op.SetSigners? && caller in call.auth && s.admin == Some(caller)
                  && (op.threshold == 0 || op.threshold > |op.signers|))
            && (answer == Failed(WalletNotRegistered) <==>
                  op.Subscribe? && caller in call.auth && op.subscription.wallet !in Wallets(s, caller))
            && (answer == Failed(SubscriptionNotFound) <==>
                  op.Unsubscribe? && caller in call.auth && (caller, op.wallet, op.channel) !in s.subscriptions)
  {
    hide SaveAndMaybeExecute, WriteConfig;
  }

  lemma ApprovalRefusals(s: Store, call: Call)
    ensures var (op, answer) := (call.op, Perform(s, call).1);
            var heard := op.ApproveProposal? && op.signer in call.auth && op.signer in Signers(s);
            && (answer == Failed(ProposalNotFound) <==> heard && op.id !in s.proposals)
            && (answer == Failed(ProposalAlreadyExecuted) <==> heard && op.id in s.proposals && s.proposals[op.id].executed)
            && (answer == Failed(AlreadyApproved) <==>
                  && heard && op.id in s.proposals && !s.proposals[op.id].executed
                  && op.signer in s.proposals[op.id].approvals)
  {
    hide SaveAndMaybeExecute, WriteConfig;
  }

  // ---------------------------------------------------------------------------
  // The storage remembers the last accepted call
  // ---------------------------------------------------------------------------

  /** Something that some calls decide about. */
  datatype Subject =
    | Admin
    | Rules
    | Role(account: Address)
    | Listener(user: Address, channel: Symbol)
    | Wallet(user: Address, wallet: Address)
    | Alert(user: Address, wallet: Address, channel: Symbol)

  predicate Decides(op: Op, subject: Subject) {
    match subject
    case Admin => op.Initialize? || op.SetAdmin?
    case Rules => op.SetSigners?
    case Role(account) => (op.GrantRole? || op.RevokeRole?) && op.account == account
    case Listener(user, channel) => op.RegisterListener? && op.user == user && op.channel == channel
    case Wallet(user, wallet) => op.RegisterWallet? && op.user == user && op.wallet == wallet
    case Alert(user, wallet, channel) =>
      || (op.Subscribe? && op.user == user && op.subscription.wallet == wallet && op.subscription.channel == channel)
      || (op.Unsubscribe? && op.user == user && op.wallet == wallet && op.channel == channel)
  }

  /** The last accepted call of a history that decides about the subject. */
  ghost function Last(calls: seq<Call>, subject: Subject): (last: Option<Op>)
    ensures last.Some? ==> Decides(last.value, subject)
  {
    if calls == [] then None
    else
      var front, call := calls[..|calls| - 1], calls[|calls| - 1];
      if Decides(call.op, subject) && Accepted(Run(Empty, front), call) then Some(call.op) else Last(front, subject)
  }

  /** The storage looks as this call left it; None for a subject no call has decided about. */
  predicate Reflects(s: Store, subject: Subject, last: Option<Op>)
    requires last.Some? ==> Decides(last.value, subject)
  {
    match subject
    case Admin =>
      s.admin == if last.None? then None else Some(if last.value.Initialize? then last.value.admin else last.value.newAdmin)
    case Rules =>
      && s.signers == (if last.None? then None else Some(last.value.signers))
      && s.threshold == (if last.None? then None else Some(last.value.threshold))
    case Role(account) => account in s.configManagers <==> last.Some? && last.value.GrantRole?
    case Listener(user, channel) =>
      if last.None? then (user, channel) !in s.listeners
      else (user, channel) in s.listeners && s.listeners[(user, channel)] == last.value.target
    case Wallet(user, wallet) => wallet in Wallets(s, user) <==> last.Some?
    case Alert(user, wallet, channel) =>
      if last.Some? && last.value.Subscribe?
      then (user, wallet, channel) in s.subscriptions && s.subscriptions[(user, wallet, channel)] == last.value.subscription
      else (user, wallet, channel) !in s.subscriptions
  }

  /** Everything a proposal does not touch. */
  predicate SameBesides(s: Store, t: Store) {
    && t.admin == s.admin && t.signers == s.signers && t.threshold == s.threshold && t.configManagers == s.configManagers
    && t.listeners == s.listeners && t.wallets == s.wallets && t.subscriptions == s.subscriptions
  }

  lemma SaveLeaves(base: Store, id: nat, p: Proposal)
    ensures SameBesides(base, SaveAndMaybeExecute(base, id, p))
  {
  }

  lemma ProposalsLeave(s: Store, call: Call)
    requires ForSigner(call.op)
    ensures SameBesides(s, Perform(s, call).0)
  {
    hide SaveAndMaybeExecute;
    match call.op {
      case ProposeConfig(proposer, key, value) =>
        var id := NextId(s);
        SaveLeaves(s.(nextProposal := Some(id + 1), consents := s.consents + [Consent(id, proposer, Signers(s))]), id, Proposal(key, value, [proposer], false));
      case ApproveProposal(signer, id) =>
        if id in s.proposals {
          var p := s.proposals[id];
          SaveLeaves(s.(consents := s.consents + [Consent(id, signer, Signers(s))]), id, p.(approvals := p.approvals + [signer]));
        }
    }
  }

  lemma SameReflects(s: Store, t: Store, subject: Subject, last: Option<Op>)
    requires (last.Some? ==> Decides(last.value, subject)) && Reflects(s, subject, last) && SameBesides(s, t)
    ensures Reflects(t, subject, last)
  {
  }

  predicate ForUser(op: Op) {
    op.RegisterListener? || op.RegisterWallet? || op.Subscribe? || op.Unsubscribe?
  }

  ghost predicate Followed(s: Store, call: Call, subject: Subject, last: Option<Op>)
    requires last.Some? ==> Decides(last.value, subject)
  {
    Reflects(Perform(s, call).0, subject, if Decides(call.op, subject) && Accepted(s, call) then Some(call.op) else last)
  }

  lemma UserCalls(s: Store, call: Call, subject: Subject, last: Option<Op>)
    requires ForUser(call.op) && (last.Some? ==> Decides(last.value, subject)) && Reflects(s, subject, last)
    ensures Followed(s, call, subject, last)
  {
    hide DoPropose, DoApprove, DoUpdateConfig, DoSetSigners, ByAdmin, DoSubscribe, DoUnsubscribe, DoRegisterWallet;
    match call.op {
      case Subscribe(user, sub) => SubscribeCall(s, call, subject, last);
      case Unsubscribe(user, wallet, channel) => SubscribeCall(s, call, subject, last);
      case RegisterWallet(user, wallet) => RegisterCall(s, call, subject, last);
      case RegisterListener(user, channel, target) =>
    }
  }

  lemma SubscribeCall(s: Store, call: Call, subject: Subject, last: Option<Op>)
    requires (call.op.Subscribe? || call.op.Unsubscribe?) && (last.Some? ==> Decides(last.value, subject)) && Reflects(s, subject, last)
    ensures Followed(s, call, subject, last)
  {
    hide Signers, Threshold;
  }

  lemma RegisterCall(s: Store, call: Call, subject: Subject, last: Option<Op>)
    requires call.op.RegisterWallet? && (last.Some? ==> Decides(last.value, subject)) && Reflects(s, subject, last)
    ensures Followed(s, call, subject, last)
  {
  }

  lemma AdminCalls(s: Store, call: Call, subject: Subject, last: Option<Op>)
    requires !ForUser(call.op) && !ForSigner(call.op) && (last.Some? ==> Decides(last.value, subject)) && Reflects(s, subject, last)
    ensures Followed(s, call, subject, last)
  {
    hide Reflects, Perform, Accepted;
    match call.op {
      case SetSigners(admin, signers, threshold) => RulesCall(s, call, subject, last);
      case UpdateConfig(admin, key, value) => ConfigCall(s, call, subject, last);
      case GrantRole(admin, account) => RoleCall(s, call, subject, last);
      case RevokeRole(admin, account) => RoleCall(s, call, subject, last);
      case _ => AdminCall(s, call, subject, last);
    }
  }

  lemma RulesCall(s: Store, call: Call, subject: Subject, last: Option<Op>)
    requires call.op.SetSigners? && (last.Some? ==> Decides(last.value, subject)) && Reflects(s, subject, last)
    ensures Followed(s, call, subject, last)
  {
  }

  lemma ConfigCall(s: Store, call: Call, subject: Subject, last: Option<Op>)
    requires call.op.UpdateConfig? && (last.Some? ==> Decides(last.value, subject)) && Reflects(s, subject, last)
    ensures Followed(s, call, subject, last)
  {
  }

  lemma RoleCall(s: Store, call: Call, subject: Subject, last: Option<Op>)
    requires (call.op.GrantRole? || call.op.RevokeRole?) && (last.Some? ==> Decides(last.value, subject)) && Reflects(s, subject, last)
    ensures Followed(s, call, subject, last)
  {
  }

  lemma AdminCall(s: Store, call: Call, subject: Subject, last: Option<Op>)
    requires (call.op.Initialize? || call.op.SetAdmin?) && (last.Some? ==> Decides(last.value, subject)) && Reflects(s, subject, last)
    ensures Followed(s, call, subject, last)
  {
  }

  /** An accepted call that decides about the subject, and any other one. */
  lemma ReflectsStep(s: Store, call: Call, subject: Subject, last: Option<Op>)
    requires (last.Some? ==> Decides(last.value, subject)) && Reflects(s, subject, last)
    ensures Followed(s, call, subject, last)
  {
    if ForSigner(call.op) {
      hide Perform, Reflects;
      ProposalsLeave(s, call);
      SameReflects(s, Perform(s, call).0, subject, last);
    } else if ForUser(call.op) {
      UserCalls(s, call, subject, last);
    } else {
      AdminCalls(s, call, subject, last);
    }
  }

  /**
    Over every run: the admin, the signers and their threshold, every role, listener, wallet
    and subscription are what the last accepted call about them left.
   */
  lemma {:induction false} StorageExactly(calls: seq<Call>, subject: Subject)
    ensures Reflects(Run(Empty, calls), subject, Last(calls, subject))
  {
    hide Perform, Accepted, Decides, Reflects;
    if calls == [] {
      NothingDecided(subject);
    } else {
      StorageExactly(calls[..|calls| - 1], subject);
      ReflectsStep(Run(Empty, calls[..|calls| - 1]), calls[|calls| - 1], subject, Last(calls[..|calls| - 1], subject));
    }
  }

  lemma NothingDecided(subject: Subject)
    ensures Reflects(Empty, subject, None)
  {
  }

  // ---------------------------------------------------------------------------
  // Who writes configuration directly
  // ---------------------------------------------------------------------------

  /** The call writes configuration without a proposal. */
  ghost predicate WritesDirectly(s: Store, call: Call) {
    var t := Perform(s, call).0;
    |t.writes| > |s.writes| && t.writes[|s.writes|].origin == None
  }

  /** Made by a history: who is the admin, who holds the role, and how many approvals are asked for. */
  ghost function AdminBy(calls: seq<Call>): Option<Address> {
    var last := Last(calls, Admin);
    if last.None? then None else Some(if last.value.Initialize? then last.value.admin else last.value.newAdmin)
  }

  ghost predicate ManagerBy(calls: seq<Call>, a: Address) {
    var last := Last(calls, Role(a));
    last.Some? && last.value.GrantRole?
  }

  ghost predicate Multisig(calls: seq<Call>) {
    var last := Last(calls, Rules);
    last.Some? && last.value.threshold > 1
  }

  /** An account holds the role exactly when the last accepted grant or revocation for it was a grant. */
  lemma RoleExactly(calls: seq<Call>, a: Address)
    ensures a in Run(Empty, calls).configManagers <==> ManagerBy(calls, a)
  {
    hide Run, Last;
    StorageExactly(calls, Role(a));
  }

  lemma OneWrite(s: Store, call: Call)
    ensures WritesDirectly(s, call) <==> call.op.UpdateConfig? && Accepted(s, call)
    ensures WritesDirectly(s, call) ==>
              Perform(s, call).0 == s.(config := s.config[call.op.key := call.op.value],
                                       writes := s.writes + [Write(None, call.op.key, call.op.value, [], Threshold(s))])
  {
    hide SaveAndMaybeExecute, DoSubscribe, DoUnsubscribe, DoRegisterWallet, ByAdmin;
    match call.op {
      case ProposeConfig(proposer, key, value) =>
        var id := NextId(s);
        SaveWrites(s.(nextProposal := Some(id + 1), consents := s.consents + [Consent(id, proposer, Signers(s))]), id, Proposal(key, value, [proposer], false));
      case ApproveProposal(signer, id) =>
        if id in s.proposals {
          var p := s.proposals[id];
          SaveWrites(s.(consents := s.consents + [Consent(id, signer, Signers(s))]), id, p.(approvals := p.approvals + [signer]));
        }
      case UpdateConfig(admin, key, value) => DirectWrite(s, call);
      case SetSigners(admin, signers, threshold) => SetSignersFields(s, call.auth, admin, signers, threshold);
      case _ => OtherFields(s, call);
    }
  }

  lemma DirectWrite(s: Store, call: Call)
    requires call.op.UpdateConfig?
    ensures WritesDirectly(s, call) <==> Accepted(s, call)
    ensures WritesDirectly(s, call) ==>
              Perform(s, call).0 == s.(config := s.config[call.op.key := call.op.value],
                                       writes := s.writes + [Write(None, call.op.key, call.op.value, [], Threshold(s))])
  {
    var t := Perform(s, call).0;
    if Accepted(s, call) {
      assert t.writes == s.writes + [Write(None, call.op.key, call.op.value, [], Threshold(s))];
    }
  }

  lemma SaveWrites(base: Store, id: nat, p: Proposal)
    ensures var t := SaveAndMaybeExecute(base, id, p);
            t.writes == base.writes || (|t.writes| == |base.writes| + 1 && t.writes[|base.writes|].origin == Some(id))
  {
  }

  /**
    In every reachable state: configuration is written without a proposal if and only if the
    call is update_config, authorized by its caller, who is the admin or, once there is an
    admin, was last granted rather than revoked the role, while no threshold above 1 is set.
   */
  lemma DirectWriteExactly(calls: seq<Call>, call: Call)
    ensures WritesDirectly(Run(Empty, calls), call) <==>
              && call.op.UpdateConfig? && call.op.admin in call.auth
              && AdminBy(calls).Some? && (AdminBy(calls).value == call.op.admin || ManagerBy(calls, call.op.admin))
              && !Multisig(calls)
    ensures var (s, t) := (Run(Empty, calls), Perform(Run(Empty, calls), call).0);
            WritesDirectly(s, call) ==> t.config == s.config[call.op.key := call.op.value]
  {
    hide Run, Last, Perform, WritesDirectly, Accepted;
    var s := Run(Empty, calls);
    OneWrite(s, call);
    AcceptedExactly(s, call);
    StorageExactly(calls, Admin);
    StorageExactly(calls, Rules);
    if call.op.UpdateConfig? {
      RoleExactly(calls, call.op.admin);
    }
  }
}
