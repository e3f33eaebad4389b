/**
 Access control as the contract runs it: stored maps changed by each call, listed roles and signers
 searched by loops. The caller argument stands for the authenticated address.
 */
module AccessContract {
  import opened Host
  import opened AccessModel
  import opened AccessRuns

  class AccessControl {
    var admin: Option<Address>
    var members: map<Grant, RoleRecord>
    var permissions: set<Permission>
    var known: seq<Symbol>
    var parents: map<Symbol, Symbol>
    var emergencyMode: bool
    var emergencyRoles: set<Symbol>
    var delegations: map<Grant, Delegation>
    var config: Option<MultiSigConfig>
    var signers: Option<seq<Address>>
    var proposals: map<nat, Proposal>
    var approvals: map<nat, set<Address>>
    var counter: nat

    ghost function Model(): Rbac
      reads this
    {
      Rbac(admin, members, permissions, known, parents, emergencyMode, emergencyRoles, delegations,
           config, signers, proposals, approvals, counter)
    }

    constructor ()
      ensures Model() == EMPTY_RBAC
    {
      admin, members, permissions, known, parents := None, map[], {}, [], map[];
      emergencyMode, emergencyRoles, delegations := false, {}, map[];
      config, signers, proposals, approvals, counter := None, None, map[], map[], 0;
    }

    // ----- reads ---------------------------------------------------------------------

    method HoldsRole(role: Symbol, who: Address, ledger: nat) returns (held: bool)
      ensures held <==> HasRole(Model(), role, who, ledger)
    {
      var g := Grant(role, who);
      if g in members {
        if !members[g].active {
          return false;
        }
        if members[g].expiry.Some? && ledger >= members[g].expiry.value {
          return false;
        }
        return true;
      }
      if g in delegations {
        if delegations[g].active && ledger < delegations[g].expiry {
          return true;
        }
      }
      held := false;
    }

    /** Walk up to six roles of the parent chain. */
    method RolePermits(role: Symbol, action: Symbol) returns (ok: bool)
      ensures ok <==> HasPermission(Model(), role, action)
    {
      var current, depth := role, 0;
      while depth < MAX_CHAIN
        invariant depth <= MAX_CHAIN
        invariant depth < MAX_CHAIN ==> Ancestor(Model(), role, depth) == Some(current)
        invariant forall i: nat :: i < depth ==> !GrantedAt(Model(), role, action, i)
        decreases MAX_CHAIN - depth
      {
        if Permission(current, action) in permissions {
          assert GrantedAt(Model(), role, action, depth);
          return true;
        }
        assert !GrantedAt(Model(), role, action, depth);
        if current in parents {
          current := parents[current];
          depth := depth + 1;
        } else {
          assert Ancestor(Model(), role, depth + 1).None?;
          ChainEnded(Model(), role, action, depth + 1);
          break;
        }
      }
      ok := false;
    }

    /** The access guard: succeeds exactly when some role whatsoever gives access. */
    method CheckPermission(caller: Address, action: Symbol, ledger: nat) returns (r: Result<(), AccessError>)
      requires RolesListed(Model())
      ensures r == if Allowed(Model(), caller, action, ledger) then Ok(()) else Err(UnauthorizedRole)
    {
      hide HasRole, HasPermission, RolesListed, Allowed;
      ListedSuffice(Model(), caller, action, ledger);
      if emergencyMode {
        var emergency := HoldsEmergencyRole(caller, ledger);
        if emergency {
          return Ok(());
        }
      }
      for i := 0 to |known|
        invariant forall j :: 0 <= j < i ==> !(HasRole(Model(), known[j], caller, ledger) &&
                                               HasPermission(Model(), known[j], action))
      {
        var held := HoldsRole(known[i], caller, ledger);
        if held {
          var permits := RolePermits(known[i], action);
          if permits {
            return Ok(());
          }
        }
      }
      r := Err(UnauthorizedRole);
    }

    /** Whether the caller holds a listed emergency role. */
    method HoldsEmergencyRole(caller: Address, ledger: nat) returns (found: bool)
      ensures found <==>
              exists i :: 0 <= i < |known| && known[i] in emergencyRoles && HasRole(Model(), known[i], caller, ledger)
    {
      hide HasRole;
      for i := 0 to |known|
        invariant forall j :: 0 <= j < i ==> !(known[j] in emergencyRoles && HasRole(Model(), known[j], caller, ledger))
      {
        if known[i] in emergencyRoles {
          var held := HoldsRole(known[i], caller, ledger);
          if held {
            return true;
          }
        }
      }
      found := false;
    }

    method FindSigner(who: Address) returns (found: bool)
      requires signers.Some?
      ensures found <==> who in signers.value
    {
      found := false;
      for i := 0 to |signers.value|
        invariant found <==> who in signers.value[..i]
      {
        assert signers.value[..i + 1] == signers.value[..i] + [signers.value[i]];
        if signers.value[i] == who {
          found := true;
          break;
        }
      }
      assert !found ==> signers.value[..|signers.value|] == signers.value;
    }

    // ----- roles ---------------------------------------------------------------------------

    method RegisterKnownRole(role: Symbol)
      modifies this`known
      ensures known == Register(old(known), role)
    {
      for i := 0 to |known|
        invariant known == old(known) && role !in known[..i]
      {
        assert known[..i + 1] == known[..i] + [known[i]];
        if known[i] == role {
          return;
        }
      }
      assert known[..|known|] == known;
      known := known + [role];
    }

    method CheckAdmin(caller: Address) returns (error: Option<AccessError>)
      ensures error == AdminCheck(Model(), caller)
    {
      if admin.None? {
        return Some(InitializationFailed);
      }
      error := if caller != admin.value then Some(AdminRequired) else None;
    }

    method InitRoles(caller: Address) returns (r: Result<(), AccessError>)
      modifies this
      ensures match InitRolesOf(old(Model()), caller)
              case Ok(s) => r == Ok(()) && Model() == s
              case Err(error) => r == Err(error) && Model() == old(Model())
    {
      if admin.Some? {
        return Err(InitializationFailed);
      }
      admin := Some(caller);
      RegisterKnownRole(ADMIN_ROLE);
      RegisterKnownRole(NOMAD_ROLE);
      RegisterKnownRole(INDEXER_ROLE);
      members := members[Grant(ADMIN_ROLE, caller) := RoleRecord(true, None)];
      r := Ok(());
    }

    method GrantRoleTo(caller: Address, role: Symbol, grantee: Address, expiry: Option<nat>, ledger: nat)
      returns (r: Result<(), AccessError>)
      modifies this
      ensures match GrantOf(old(Model()), caller, role, [grantee], expiry, ledger)
              case Ok(s) => r == Ok(()) && Model() == s
              case Err(error) => r == Err(error) && Model() == old(Model())
    {
      var error := CheckAdmin(caller);
      if error.Some? {
        return Err(error.value);
      }
      if expiry.Some? && expiry.value <= ledger {
        return Err(InvalidExpiry);
      }
      RegisterKnownRole(role);
      members := members[Grant(role, grantee) := RoleRecord(true, expiry)];
      OneMember(Know(old(Model()), role), role, grantee, expiry);
      r := Ok(());
    }

    method GrantRoleBatch(caller: Address, role: Symbol, grantees: seq<Address>, expiry: Option<nat>, ledger: nat)
      returns (r: Result<(), AccessError>)
      modifies this
      ensures match BatchOf(old(Model()), caller, role, grantees, expiry, ledger)
              case Ok(s) => r == Ok(()) && Model() == s
              case Err(error) => r == Err(error) && Model() == old(Model())
    {
      if |grantees| > BATCH_GRANT_LIMIT {
        return Err(BatchLimitExceeded);
      }
      var error := CheckAdmin(caller);
      if error.Some? {
        return Err(error.value);
      }
      if expiry.Some? && expiry.value <= ledger {
        return Err(InvalidExpiry);
      }
      RegisterKnownRole(role);
      for i := 0 to |grantees|
        invariant Model() == SetMembers(Know(old(Model()), role), role, grantees[..i], expiry)
      {
        assert grantees[..i + 1][..i] == grantees[..i];
        members := members[Grant(role, grantees[i]) := RoleRecord(true, expiry)];
      }
      assert grantees[..|grantees|] == grantees;
      r := Ok(());
    }

    method RevokeRoleFrom(caller: Address, role: Symbol, revokee: Address) returns (r: Result<(), AccessError>)
      modifies this`members
      ensures match ByAdmin(old(Model()), caller, DropMember(old(Model()), role, revokee))
              case Ok(s) => r == Ok(()) && Model() == s
              case Err(error) => r == Err(error) && Model() == old(Model())
    {
      var error := CheckAdmin(caller);
      if error.Some? {
        return Err(error.value);
      }
      members := members - {Grant(role, revokee)};
      r := Ok(());
    }

    /** Revoke, grant and store, each step checking the admin again before the address changes. */
    method TransferAdminTo(caller: Address, newAdmin: Address) returns (r: Result<(), AccessError>)
      modifies this
      ensures match TransferOf(old(Model()), caller, newAdmin)
              case Ok(s) => r == Ok(()) && Model() == s
              case Err(error) => r == Err(error) && Model() == old(Model())
    {
      var error := CheckAdmin(caller);
      if error.Some? {
        return Err(error.value);
      }
      r := RevokeRoleFrom(caller, ADMIN_ROLE, admin.value);
      OneMember(Know(Model(), ADMIN_ROLE), ADMIN_ROLE, newAdmin, None);
      r := GrantRoleTo(caller, ADMIN_ROLE, newAdmin, None, 0);
      admin := Some(newAdmin);
    }

    method SetRoleParent(caller: Address, role: Symbol, parent: Symbol) returns (r: Result<(), AccessError>)
      modifies this
      ensures match SetParentOf(old(Model()), caller, role, parent)
              case Ok(s) => r == Ok(()) && Model() == s
              case Err(error) => r == Err(error) && Model() == old(Model())
    {
      var error := CheckAdmin(caller);
      if error.Some? {
        return Err(error.value);
      }
      if role == parent {
        return Err(InvalidRoleHierarchy);
      }
      RegisterKnownRole(role);
      RegisterKnownRole(parent);
      parents := parents[role := parent];
      r := Ok(());
    }

    method DelegateRole(delegator: Address, delegatee: Address, role: Symbol, expiry: nat, ledger: nat)
      returns (r: Result<(), AccessError>)
      modifies this`delegations
      ensures match DelegateOf(old(Model()), delegator, delegatee, role, expiry, ledger)
              case Ok(s) => r == Ok(()) && Model() == s
              case Err(error) => r == Err(error) && Model() == old(Model())
    {
      hide HasRole;
      var held := HoldsRole(role, delegator, ledger);
      if !held {
        return Err(UnauthorizedRole);
      }
      if expiry <= ledger {
        return Err(InvalidExpiry);
      }
      delegations := delegations[Grant(role, delegatee) := Delegation(delegator, expiry, true)];
      r := Ok(());
    }

    // ----- proposals ---------------------------------------------------------------------------

    method InitMultisig(caller: Address, newSigners: seq<Address>, required: nat, timelock: nat)
      returns (r: Result<(), AccessError>)
      modifies this
      ensures match InitMultiSigOf(old(Model()), caller, newSigners, required, timelock)
              case Ok(s) => r == Ok(()) && Model() == s
              case Err(error) => r == Err(error) && Model() == old(Model())
    {
      var error := CheckAdmin(caller);
      if error.Some? {
        return Err(error.value);
      }
      if |newSigners| == 0 || required == 0 || required > |newSigners| {
        return Err(InvalidSignerConfig);
      }
      config := Some(MultiSigConfig(required, |newSigners|, timelock, true));
      signers := Some(newSigners);
      r := Ok(());
    }

    method CreateProposal(proposer: Address, operation: Operation, now: nat) returns (r: Result<nat, AccessError>)
      modifies this
      ensures match CreateOf(old(Model()), proposer, operation, now)
              case Ok(s) => r == Ok(s.counter) && Model() == s
              case Err(error) => r == Err(error) && Model() == old(Model())
    {
      if config.None? || !config.value.enabled || signers.None? {
        return Err(MultiSigNotConfigured);
      }
      var isSigner := FindSigner(proposer);
      if !isSigner {
        return Err(AdminRequired);
      }
      if counter + 1 > U64_MAX || now + config.value.timelock > U64_MAX {
        return Err(HostPanic);
      }
      hide ApproversOf;
      StoreProposal(proposer, operation, now, now + config.value.timelock);
      r := Ok(counter);
    }

    method StoreProposal(proposer: Address, operation: Operation, now: nat, executionTime: nat)
      modifies this`counter, this`proposals, this`approvals
      ensures counter == old(counter) + 1
      ensures proposals == old(proposals)[counter := Proposal(proposer, operation, now, executionTime, false, 1)]
      ensures approvals == old(approvals)[counter := ApproversOf(old(Model()), counter) + {proposer}]
    {
      counter := counter + 1;
      proposals := proposals[counter := Proposal(proposer, operation, now, executionTime, false, 1)];
      approvals := approvals[counter := (if counter in approvals then approvals[counter] else {}) + {proposer}];
    }

    method ApproveProposal(approver: Address, id: nat) returns (r: Result<(), AccessError>)
      modifies this
      ensures match ApproveOf(old(Model()), approver, id)
              case Ok(s) => r == Ok(()) && Model() == s
              case Err(error) => r == Err(error) && Model() == old(Model())
    {
      if config.None? || signers.None? {
        return Err(MultiSigNotConfigured);
      }
      var isSigner := FindSigner(approver);
      if !isSigner {
        return Err(AdminRequired);
      }
      if id !in proposals {
        return Err(ProposalNotFound);
      }
      var proposal := proposals[id];
      if proposal.executed {
        return Err(ProposalAlreadyExecuted);
      }
      var approvers := if id in approvals then approvals[id] else {};
      if approver in approvers {
        return Err(AlreadyApproved);
      }
      if proposal.approvalCount + 1 > U32_MAX {
        return Err(HostPanic);
      }
      approvals := approvals[id := approvers + {approver}];
      proposals := proposals[id := proposal.(approvalCount := proposal.approvalCount + 1)];
      r := Ok(());
    }

    method ExecuteProposal(id: nat, now: nat) returns (r: Result<(), AccessError>)
      modifies this
      ensures match ExecuteOf(old(Model()), id, now)
              case Ok(s) => r == Ok(()) && Model() == s
              case Err(error) => r == Err(error) && Model() == old(Model())
    {
      hide Effect;
      if config.None? {
        return Err(MultiSigNotConfigured);
      }
      if id !in proposals {
        return Err(ProposalNotFound);
      }
      var proposal := proposals[id];
      if proposal.executed {
        return Err(ProposalAlreadyExecuted);
      }
      if proposal.approvalCount < config.value.required {
        return Err(InsufficientApprovals);
      }
      if now < proposal.executionTime {
        return Err(TimelockNotElapsed);
      }
      PerformOperation(proposal.operation, proposal.proposer);
      proposals := proposals[id := proposal.(executed := true)];
      r := Ok(());
    }

    method PerformOperation(operation: Operation, proposer: Address)
      modifies this
      ensures Model() == Effect(old(Model()), operation, proposer)
      ensures proposals == old(proposals)
    {
      match operation
      case GrantRole(role, grantee, expiry) =>
        members := members[Grant(role, grantee) := RoleRecord(true, expiry)];
        RegisterKnownRole(role);
      case RevokeRole(role, revokee) =>
        members := members - {Grant(role, revokee)};
      case GrantPermission(role, action) =>
        permissions := permissions + {Permission(role, action)};
      case RevokePermission(role, action) =>
        permissions := permissions - {Permission(role, action)};
      case TransferAdmin(newAdmin) =>
        admin := Some(newAdmin);
        members := members - {Grant(ADMIN_ROLE, proposer)};
        members := members[Grant(ADMIN_ROLE, newAdmin) := RoleRecord(true, None)];
      case UpdateMultiSig(newConfig) =>
        config := Some(newConfig);
    }
  }

  /** Past the end of a chain nothing more is granted. */
  lemma {:induction false} ChainEnded(s: Rbac, role: Symbol, action: Symbol, n: nat)
    requires Ancestor(s, role, n).None?
    ensures forall i: nat :: n <= i ==> !GrantedAt(s, role, action, i)
  {
    forall i: nat | n <= i ensures Ancestor(s, role, i).None? {
      NoneStaysNone(s, role, n, i);
    }
  }

  lemma {:induction false} NoneStaysNone(s: Rbac, role: Symbol, n: nat, i: nat)
    requires Ancestor(s, role, n).None? && n <= i
    ensures Ancestor(s, role, i).None?
  {
    if n < i {
      NoneStaysNone(s, role, n, i - 1);
    }
  }
}
