/**
 Role-based access control and multi-signature administration as a value and its operations.
 */
module AccessModel {
  import opened Host

  const BATCH_GRANT_LIMIT: nat := 5
  const MAX_CHAIN: nat := 6
  const ADMIN_ROLE := Symbol("admin")
  const NOMAD_ROLE := Symbol("nomad")
  const INDEXER_ROLE := Symbol("indexer")
  const OPERATOR_ROLE := Symbol("operator")
  const READONLY_ROLE := Symbol("readonly")

  /** `HostPanic` is an overflow of plain arithmetic, which aborts the call. */
  datatype AccessError =
    | AdminRequired | UnauthorizedRole | BatchLimitExceeded | InvalidExpiry | InitializationFailed
    | MultiSigNotConfigured | ProposalNotFound | ProposalAlreadyExecuted | InsufficientApprovals
    | AlreadyApproved | TimelockNotElapsed | InvalidSignerConfig | InvalidRoleHierarchy | HostPanic

  /** Who holds, or may do, what. */
  datatype Grant = Grant(role: Symbol, holder: Address)
  datatype Permission = Permission(role: Symbol, action: Symbol)

  datatype RoleRecord = RoleRecord(active: bool, expiry: Option<nat>)
  datatype Delegation = Delegation(delegator: Address, expiry: nat, active: bool)
  datatype MultiSigConfig = MultiSigConfig(required: nat, total: nat, timelock: nat, enabled: bool)

  datatype Operation =
    | GrantRole(role: Symbol, grantee: Address, expiry: Option<nat>)
    | RevokeRole(role: Symbol, revokee: Address)
    | GrantPermission(role: Symbol, action: Symbol)
    | RevokePermission(role: Symbol, action: Symbol)
    | TransferAdmin(newAdmin: Address)
    | UpdateMultiSig(config: MultiSigConfig)

  datatype Proposal = Proposal(
    proposer: Address,
    operation: Operation,
    createdAt: nat,
    executionTime: nat,
    executed: bool,
    approvalCount: nat)

  datatype Rbac = Rbac(
    admin: Option<Address>,
    members: map<Grant, RoleRecord>,
    permissions: set<Permission>,
    known: seq<Symbol>,
    parents: map<Symbol, Symbol>,
    emergencyMode: bool,
    emergencyRoles: set<Symbol>,
    delegations: map<Grant, Delegation>,
    config: Option<MultiSigConfig>,
    signers: Option<seq<Address>>,
    proposals: map<nat, Proposal>,
    approvals: map<nat, set<Address>>,
    counter: nat)

  const EMPTY_RBAC := Rbac(None, map[], {}, [], map[], false, {}, map[], None, None, map[], map[], 0)

  // ----- reads ------------------------------------------------------------------------

  /** A membership record, even a dead one, decides alone; a delegation only counts where there is none. */
  predicate HasRole(s: Rbac, role: Symbol, who: Address, ledger: nat) {
    var g := Grant(role, who);
    if g in s.members
    then s.members[g].active && (s.members[g].expiry.Some? ==> ledger < s.members[g].expiry.value)
    else g in s.delegations && s.delegations[g].active && ledger < s.delegations[g].expiry
  }

  /** The i-th role on the parent chain, which may run in a cycle. */
  function Ancestor(s: Rbac, role: Symbol, i: nat): Option<Symbol> {
    if i == 0 then Some(role)
    else match Ancestor(s, role, i - 1)
      case None => None
      case Some(r) => if r in s.parents then Some(s.parents[r]) else None
  }

  predicate GrantedAt(s: Rbac, role: Symbol, action: Symbol, i: nat) {
    Ancestor(s, role, i).Some? && Permission(Ancestor(s, role, i).value, action) in s.permissions
  }

  /** One of the first six roles on the parent chain has the permission. */
  predicate HasPermission(s: Rbac, role: Symbol, action: Symbol) {
    exists i: nat | i < MAX_CHAIN :: GrantedAt(s, role, action, i)
  }

  /** Access as it should be: over all roles whatsoever, not only the listed ones. */
  ghost predicate Allowed(s: Rbac, who: Address, action: Symbol, ledger: nat) {
    || (exists role :: HasRole(s, role, who, ledger) && HasPermission(s, role, action))
    || (s.emergencyMode && exists role :: role in s.emergencyRoles && HasRole(s, role, who, ledger))
  }

  predicate IsSigner(s: Rbac, who: Address) {
    s.signers.Some? && who in s.signers.value
  }

  function ApproversOf(s: Rbac, id: nat): set<Address> {
    if id in s.approvals then s.approvals[id] else {}
  }

  // ----- operations ---------------------------------------------------------------------

  function Register(known: seq<Symbol>, role: Symbol): seq<Symbol> {
    if role in known then known else known + [role]
  }

  function AdminCheck(s: Rbac, caller: Address): Option<AccessError> {
    if s.admin.None? then Some(InitializationFailed)
    else if s.admin.value != caller then Some(AdminRequired)
    else None
  }

  predicate ExpiryOk(expiry: Option<nat>, ledger: nat) {
    expiry.Some? ==> ledger < expiry.value
  }

  function SetMember(s: Rbac, role: Symbol, who: Address, expiry: Option<nat>): Rbac {
    s.(members := s.members[Grant(role, who) := RoleRecord(true, expiry)])
  }

  function SetMembers(s: Rbac, role: Symbol, who: seq<Address>, expiry: Option<nat>): Rbac {
    if who == [] then s
    else SetMember(SetMembers(s, role, who[..|who| - 1], expiry), role, who[|who| - 1], expiry)
  }

  function DropMember(s: Rbac, role: Symbol, who: Address): Rbac {
    s.(members := s.members - {Grant(role, who)})
  }

  function Know(s: Rbac, role: Symbol): Rbac {
    s.(known := Register(s.known, role))
  }

  /** An admin-only change. */
  function ByAdmin(s: Rbac, caller: Address, next: Rbac): Result<Rbac, AccessError> {
    match AdminCheck(s, caller)
    case Some(error) => Err(error)
    case None => Ok(next)
  }

  function InitRolesOf(s: Rbac, admin: Address): Result<Rbac, AccessError> {
    if s.admin.Some? then Err(InitializationFailed)
    else
      var listed := Know(Know(Know(s.(admin := Some(admin)), ADMIN_ROLE), NOMAD_ROLE), INDEXER_ROLE);
      Ok(SetMember(listed, ADMIN_ROLE, admin, None))
  }

  function GrantOf(s: Rbac, caller: Address, role: Symbol, who: seq<Address>, expiry: Option<nat>, ledger: nat)
    : Result<Rbac, AccessError>
  {
    if AdminCheck(s, caller).Some? then Err(AdminCheck(s, caller).value)
    else if !ExpiryOk(expiry, ledger) then Err(InvalidExpiry)
    else Ok(SetMembers(Know(s, role), role, who, expiry))
  }

  function BatchOf(s: Rbac, caller: Address, role: Symbol, who: seq<Address>, expiry: Option<nat>, ledger: nat)
    : Result<Rbac, AccessError>
  {
    if |who| > BATCH_GRANT_LIMIT then Err(BatchLimitExceeded) else GrantOf(s, caller, role, who, expiry, ledger)
  }

  function TransferOf(s: Rbac, caller: Address, newAdmin: Address): Result<Rbac, AccessError> {
    ByAdmin(s, caller,
            SetMember(Know(DropMember(s, ADMIN_ROLE, caller), ADMIN_ROLE), ADMIN_ROLE, newAdmin, None).(
              admin := Some(newAdmin)))
  }

  function InitMultiSigOf(s: Rbac, caller: Address, signers: seq<Address>, required: nat, timelock: nat)
    : Result<Rbac, AccessError>
  {
    if AdminCheck(s, caller).Some? then Err(AdminCheck(s, caller).value)
    else if |signers| == 0 || required == 0 || required > |signers| then Err(InvalidSignerConfig)
    else Ok(s.(config := Some(MultiSigConfig(required, |signers|, timelock, true)), signers := Some(signers)))
  }

  /** The new proposal gets the counter's next value as its ID. */
  function CreateOf(s: Rbac, proposer: Address, op: Operation, now: nat): Result<Rbac, AccessError> {
    if s.config.None? || !s.config.value.enabled || s.signers.None? then Err(MultiSigNotConfigured)
    else if !IsSigner(s, proposer) then Err(AdminRequired)
    else if s.counter + 1 > U64_MAX || now + s.config.value.timelock > U64_MAX then Err(HostPanic)
    else
      var id := s.counter + 1;
      Ok(s.(
        proposals := s.proposals[id := Proposal(proposer, op, now, now + s.config.value.timelock, false, 1)],
        approvals := s.approvals[id := ApproversOf(s, id) + {proposer}],
        counter := id))
  }

  function ApproveOf(s: Rbac, approver: Address, id: nat): Result<Rbac, AccessError> {
    if s.config.None? || s.signers.None? then Err(MultiSigNotConfigured)
    else if !IsSigner(s, approver) then Err(AdminRequired)
    else if id !in s.proposals then Err(ProposalNotFound)
    else if s.proposals[id].executed then Err(ProposalAlreadyExecuted)
    else if approver in ApproversOf(s, id) then Err(AlreadyApproved)
    else if s.proposals[id].approvalCount + 1 > U32_MAX then Err(HostPanic)
    else Ok(s.(
      proposals := s.proposals[id := s.proposals[id].(approvalCount := s.proposals[id].approvalCount + 1)],
      approvals := s.approvals[id := ApproversOf(s, id) + {approver}]))
  }

  /** What an executed operation does. */
  function Effect(s: Rbac, op: Operation, proposer: Address): Rbac {
    match op
    case GrantRole(role, grantee, expiry) => Know(SetMember(s, role, grantee, expiry), role)
    case RevokeRole(role, revokee) => DropMember(s, role, revokee)
    case GrantPermission(role, action) => s.(permissions := s.permissions + {Permission(role, action)})
    case RevokePermission(role, action) => s.(permissions := s.permissions - {Permission(role, action)})
    case TransferAdmin(newAdmin) =>
      SetMember(DropMember(s.(admin := Some(newAdmin)), ADMIN_ROLE, proposer), ADMIN_ROLE, newAdmin, None)
    case UpdateMultiSig(config) => s.(config := Some(config))
  }

  function ExecuteOf(s: Rbac, id: nat, now: nat): Result<Rbac, AccessError> {
    if s.config.None? then Err(MultiSigNotConfigured)
    else if id !in s.proposals then Err(ProposalNotFound)
    else
      var p := s.proposals[id];
      if p.executed then Err(ProposalAlreadyExecuted)
      else if p.approvalCount < s.config.value.required then Err(InsufficientApprovals)
      else if now < p.executionTime then Err(TimelockNotElapsed)
      else Ok(Effect(s, p.operation, p.proposer).(proposals := s.proposals[id := p.(executed := true)]))
  }

  function SetParentOf(s: Rbac, caller: Address, role: Symbol, parent: Symbol): Result<Rbac, AccessError> {
    if AdminCheck(s, caller).Some? then Err(AdminCheck(s, caller).value)
    else if role == parent then Err(InvalidRoleHierarchy)
    else Ok(Know(Know(s, role), parent).(parents := s.parents[role := parent]))
  }

  function SetEmergencyRoleOf(s: Rbac, caller: Address, role: Symbol, on: bool): Result<Rbac, AccessError> {
    ByAdmin(s, caller,
            Know(s, role).(emergencyRoles := if on then s.emergencyRoles + {role} else s.emergencyRoles - {role}))
  }

  function DelegateOf(s: Rbac, delegator: Address, delegatee: Address, role: Symbol, expiry: nat, ledger: nat)
    : Result<Rbac, AccessError>
  {
    if !HasRole(s, role, delegator, ledger) then Err(UnauthorizedRole)
    else if expiry <= ledger then Err(InvalidExpiry)
    else Ok(s.(delegations := s.delegations[Grant(role, delegatee) := Delegation(delegator, expiry, true)]))
  }

  function TemplatesOf(s: Rbac, caller: Address): Result<Rbac, AccessError> {
    ByAdmin(s, caller,
            Know(Know(Know(s, READONLY_ROLE), OPERATOR_ROLE), ADMIN_ROLE).(
              permissions := s.permissions +
                {Permission(READONLY_ROLE, Symbol("read")), Permission(READONLY_ROLE, Symbol("query")),
                 Permission(OPERATOR_ROLE, Symbol("operate")), Permission(OPERATOR_ROLE, Symbol("pause")),
                 Permission(ADMIN_ROLE, Symbol("admin")), Permission(ADMIN_ROLE, Symbol("manage"))},
              parents := s.parents[ADMIN_ROLE := OPERATOR_ROLE][OPERATOR_ROLE := READONLY_ROLE]))
  }
}
