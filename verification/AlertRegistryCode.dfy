/**
  The contract of contracts/alert_registry/src/lib.rs entry point by entry point: each
  method changes the storage, and answers, as module AlertRegistry says.
 */
module AlertRegistryCode {
  import opened Wrappers
  import opened AlertRegistry

  class AlertRegistryContract {
    var admin: Option<Address>
    var signers: Option<seq<Address>>
    var threshold: Option<nat>
    var nextProposal: Option<nat>
    var proposals: map<nat, Proposal>
    var configManagers: set<Address>
    var config: map<Symbol, string>
    var listeners: map<(Address, Symbol), string>
    var wallets: map<Address, seq<Address>>
    var subscriptions: map<(Address, Address, Symbol), Subscription>
    ghost var writes: seq<Write>
    ghost var consents: seq<Consent>

    /** The storage, with its history. */
    ghost function View(): Store
      reads this
    {
      Store(admin, signers, threshold, nextProposal, proposals, configManagers, config, listeners, wallets, subscriptions,
            writes, consents)
    }

    constructor ()
      ensures View() == Empty
    {
      admin, signers, threshold, nextProposal := None, None, None, None;
      proposals, configManagers, config, listeners := map[], {}, map[], map[];
      wallets, subscriptions, writes, consents := map[], map[], [], [];
    }

    function GetThreshold(): nat
      reads this
    {
      if threshold.Some? then threshold.value else 1
    }

    function GetSigners(): seq<Address>
      reads this
    {
      if signers.Some? then signers.value else []
    }

    function GetWallets(user: Address): seq<Address>
      reads this
    {
      if user in wallets then wallets[user] else []
    }

    method RequireAdmin(auth: set<Address>, caller: Address) returns (refusal: Option<Answer>)
      ensures refusal == AdminRefusal(View(), auth, caller)
    {
      if caller !in auth { return Some(Trapped); }
      if admin.None? { return Some(Failed(NotInitialized)); }
      if admin.value != caller { return Some(Panicked(Unauthorized)); }
      return None;
    }

    method RequireSigner(auth: set<Address>, caller: Address) returns (refusal: Option<Answer>)
      ensures refusal == SignerRefusal(View(), auth, caller)
    {
      if caller !in auth { return Some(Trapped); }
      if caller !in GetSigners() { return Some(Panicked(Unauthorized)); }
      return None;
    }

    method PutConfig(key: Symbol, value: string, ghost origin: Option<nat>, ghost approvals: seq<Address>)
      modifies this`config, this`writes
      ensures View() == WriteConfig(old(View()), origin, key, value, approvals)
    {
      config := config[key := value];
      writes := writes + [Write(origin, key, value, approvals, Threshold(View()))];
    }

    method SaveProposal(id: nat, proposal: Proposal)
      modifies this`config, this`writes, this`proposals
      ensures View() == SaveAndMaybeExecute(old(View()), id, proposal)
    {
      var saved := proposal;
      if |proposal.approvals| >= GetThreshold() {
        PutConfig(proposal.key, proposal.value, Some(id), proposal.approvals);
        saved := saved.(executed := true);
      }
      proposals := proposals[id := saved];
    }

    method Initialize(auth: set<Address>, newAdmin: Address) returns (answer: Answer)
      modifies this`admin
      ensures (View(), answer) == Perform(old(View()), Call(auth, Op.Initialize(newAdmin)))
    {
      if admin.Some? { return Failed(AlreadyInitialized); }
      if newAdmin !in auth { return Trapped; }
      admin := Some(newAdmin);
      return Done;
    }

    method SetAdmin(auth: set<Address>, caller: Address, newAdmin: Address) returns (answer: Answer)
      modifies this`admin
      ensures (View(), answer) == Perform(old(View()), Call(auth, Op.SetAdmin(caller, newAdmin)))
    {
      hide AdminRefusal;
      var refusal := RequireAdmin(auth, caller);
      if refusal.Some? { return refusal.value; }
      admin := Some(newAdmin);
      return Done;
    }

    method UpdateConfig(auth: set<Address>, caller: Address, key: Symbol, value: string) returns (answer: Answer)
      modifies this`config, this`writes
      ensures (View(), answer) == Perform(old(View()), Call(auth, Op.UpdateConfig(caller, key, value)))
    {
      if caller !in auth { return Trapped; }
      if admin.None? { return Failed(NotInitialized); }
      var permitted := caller == admin.value || caller in configManagers;
      if !permitted || GetThreshold() > 1 { return Panicked(Unauthorized); }
      PutConfig(key, value, None, []);
      return Done;
    }

    method GrantRole(auth: set<Address>, caller: Address, account: Address) returns (answer: Answer)
      modifies this`configManagers
      ensures (View(), answer) == Perform(old(View()), Call(auth, Op.GrantRole(caller, account)))
    {
      hide AdminRefusal;
      var refusal := RequireAdmin(auth, caller);
      if refusal.Some? { return refusal.value; }
      configManagers := configManagers + {account};
      return Done;
    }

    method RevokeRole(auth: set<Address>, caller: Address, account: Address) returns (answer: Answer)
      modifies this`configManagers
      ensures (View(), answer) == Perform(old(View()), Call(auth, Op.RevokeRole(caller, account)))
    {
      hide AdminRefusal;
      var refusal := RequireAdmin(auth, caller);
      if refusal.Some? { return refusal.value; }
      configManagers := configManagers - {account};
      return Done;
    }

    method ConfigureSigners(auth: set<Address>, caller: Address, newSigners: seq<Address>, newThreshold: nat) returns (answer: Answer)
      modifies this`signers, this`threshold
      ensures (View(), answer) == Perform(old(View()), Call(auth, Op.SetSigners(caller, newSigners, newThreshold)))
    {
      hide AdminRefusal;
      var refusal := RequireAdmin(auth, caller);
      if refusal.Some? { return refusal.value; }
      if newThreshold == 0 || newThreshold > |newSigners| { return Failed(InvalidThreshold); }
      signers := Some(newSigners);
      threshold := Some(newThreshold);
      return Done;
    }

    method ProposeConfig(auth: set<Address>, proposer: Address, key: Symbol, value: string) returns (answer: Answer)
      modifies this`nextProposal, this`proposals, this`config, this`writes, this`consents
      ensures (View(), answer) == Perform(old(View()), Call(auth, Op.ProposeConfig(proposer, key, value)))
    {
      hide SignerRefusal, SaveAndMaybeExecute;
      var refusal := RequireSigner(auth, proposer);
      if refusal.Some? { return refusal.value; }
      var id := if nextProposal.Some? then nextProposal.value else 0;
      if id + 1 >= U32_LIMIT { return Trapped; }
      nextProposal := Some(id + 1);
      consents := consents + [Consent(id, proposer, GetSigners())];
      SaveProposal(id, Proposal(key, value, [proposer], false));
      return Opened(id);
    }

    method ApproveProposal(auth: set<Address>, signer: Address, id: nat) returns (answer: Answer)
      modifies this`proposals, this`config, this`writes, this`consents
      ensures (View(), answer) == Perform(old(View()), Call(auth, Op.ApproveProposal(signer, id)))
    {
      hide SignerRefusal, SaveAndMaybeExecute;
      var refusal := RequireSigner(auth, signer);
      if refusal.Some? { return refusal.value; }
      if id !in proposals { return Failed(ProposalNotFound); }
      var proposal := proposals[id];
      if proposal.executed { return Failed(ProposalAlreadyExecuted); }
      if signer in proposal.approvals { return Failed(AlreadyApproved); }
      consents := consents + [Consent(id, signer, GetSigners())];
      SaveProposal(id, proposal.(approvals := proposal.approvals + [signer]));
      return Done;
    }

    method RegisterListener(auth: set<Address>, user: Address, channel: Symbol, target: string) returns (answer: Answer)
      modifies this`listeners
      ensures (View(), answer) == Perform(old(View()), Call(auth, Op.RegisterListener(user, channel, target)))
    {
      if user !in auth { return Trapped; }
      listeners := listeners[(user, channel) := target];
      return Done;
    }

    method RegisterWallet(auth: set<Address>, user: Address, wallet: Address) returns (answer: Answer)
      modifies this`wallets
      ensures (View(), answer) == Perform(old(View()), Call(auth, Op.RegisterWallet(user, wallet)))
    {
      if user !in auth { return Trapped; }
      var registered := GetWallets(user);
      if wallet !in registered {
        wallets := wallets[user := registered + [wallet]];
      }
      return Done;
    }

    method Subscribe(auth: set<Address>, user: Address, subscription: Subscription) returns (answer: Answer)
      modifies this`subscriptions
      ensures (View(), answer) == Perform(old(View()), Call(auth, Op.Subscribe(user, subscription)))
    {
      if user !in auth { return Trapped; }
      if subscription.wallet !in GetWallets(user) { return Failed(WalletNotRegistered); }
      subscriptions := subscriptions[(user, subscription.wallet, subscription.channel) := subscription];
      return Done;
    }

    method Unsubscribe(auth: set<Address>, user: Address, wallet: Address, channel: Symbol) returns (answer: Answer)
      modifies this`subscriptions
      ensures (View(), answer) == Perform(old(View()), Call(auth, Op.Unsubscribe(user, wallet, channel)))
    {
      if user !in auth { return Trapped; }
      if (user, wallet, channel) !in subscriptions { return Failed(SubscriptionNotFound); }
      subscriptions := subscriptions - {(user, wallet, channel)};
      return Done;
    }
  }
}
