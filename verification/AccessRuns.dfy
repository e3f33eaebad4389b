/**
 Access control over whole runs: which roles are listed, and what a proposal needs to take effect.
 */
module AccessRuns {
  import opened Host
  import opened AccessModel

  datatype Op =
    | InitRoles(admin: Address)
    | Grant1(caller: Address, role: Symbol, grantee: Address, expiry: Option<nat>)
    | GrantBatch(caller: Address, role: Symbol, grantees: seq<Address>, expiry: Option<nat>)
    | Revoke1(caller: Address, role: Symbol, revokee: Address)
    | Permit(caller: Address, role: Symbol, action: Symbol)
    | Forbid(caller: Address, role: Symbol, action: Symbol)
    | Transfer(caller: Address, newAdmin: Address)
    | InitMultiSig(caller: Address, signers: seq<Address>, required: nat, timelock: nat)
    | Create(caller: Address, operation: Operation)
    | Approve(caller: Address, id: nat)
    | Execute(caller: Address, id: nat)
    | SetParent(caller: Address, role: Symbol, parent: Symbol)
    | SetEmergencyMode(caller: Address, on: bool)
    | SetEmergencyRole(caller: Address, role: Symbol, on: bool)
    | Delegate(caller: Address, delegatee: Address, role: Symbol, until: nat)
    | Undelegate(caller: Address, delegatee: Address, role: Symbol)
    | Templates(caller: Address)

  /** A call at a ledger timestamp and ledger sequence number. */
  datatype Call = Call(op: Op, now: nat, ledger: nat)

  function Apply(s: Rbac, call: Call): Result<Rbac, AccessError> {
    match call.op
    case InitRoles(admin) => InitRolesOf(s, admin)
    case Grant1(caller, role, grantee, expiry) => GrantOf(s, caller, role, [grantee], expiry, call.ledger)
    case GrantBatch(caller, role, grantees, expiry) => BatchOf(s, caller, role, grantees, expiry, call.ledger)
    case Revoke1(caller, role, revokee) => ByAdmin(s, caller, DropMember(s, role, revokee))
    case Permit(caller, role, action) =>
      ByAdmin(s, caller, s.(permissions := s.permissions + {Permission(role, action)}))
    case Forbid(caller, role, action) =>
      ByAdmin(s, caller, s.(permissions := s.permissions - {Permission(role, action)}))
    case Transfer(caller, newAdmin) => TransferOf(s, caller, newAdmin)
    case InitMultiSig(caller, signers, required, timelock) => InitMultiSigOf(s, caller, signers, required, timelock)
    case Create(caller, operation) => CreateOf(s, caller, operation, call.now)
    case Approve(caller, id) => ApproveOf(s, caller, id)
    case Execute(caller, id) => ExecuteOf(s, id, call.now)
    case SetParent(caller, role, parent) => SetParentOf(s, caller, role, parent)
    case SetEmergencyMode(caller, on) => ByAdmin(s, caller, s.(emergencyMode := on))
    case SetEmergencyRole(caller, role, on) => SetEmergencyRoleOf(s, caller, role, on)
    case Delegate(caller, delegatee, role, until) => DelegateOf(s, caller, delegatee, role, until, call.ledger)
    case Undelegate(caller, delegatee, role) => Ok(s.(delegations := s.delegations - {Grant(role, delegatee)}))
    case Templates(caller) => TemplatesOf(s, caller)
  }

  /** A failed call is rolled back. */
  function Step(s: Rbac, call: Call): Rbac {
    match Apply(s, call)
    case Ok(next) => next
    case Err(_) => s
  }

  function Run(calls: seq<Call>): Rbac {
    if calls == [] then EMPTY_RBAC else Step(Run(calls[..|calls| - 1]), calls[|calls| - 1])
  }

  // ----- listed roles --------------------------------------------------------------------

  /** Every role anyone holds, directly or by delegation, is listed; so is the admin role once multi-sig exists. */
  ghost predicate RolesListed(s: Rbac) {
    && (forall g :: g in s.members ==> g.role in s.known)
    && (forall g :: g in s.delegations ==> g.role in s.known)
    && (s.admin.Some? || s.config.Some? ==> ADMIN_ROLE in s.known)
  }

  lemma {:induction false} SetMembersListed(s: Rbac, role: Symbol, who: seq<Address>, expiry: Option<nat>)
    requires RolesListed(s) && role in s.known
    ensures RolesListed(SetMembers(s, role, who, expiry)) && SetMembers(s, role, who, expiry).known == s.known
  {
    if who != [] {
      SetMembersListed(s, role, who[..|who| - 1], expiry);
    }
  }

  lemma EffectListed(s: Rbac, op: Operation, proposer: Address)
    requires RolesListed(s) && s.config.Some?
    ensures RolesListed(Effect(s, op, proposer))
  {}

  lemma HolderListed(s: Rbac, role: Symbol, who: Address, ledger: nat)
    requires RolesListed(s) && HasRole(s, role, who, ledger)
    ensures role in s.known
  {
    assert Grant(role, who) in s.members || Grant(role, who) in s.delegations;
    assert Grant(role, who).role == role;
  }

  ghost predicate ResultListed(r: Result<Rbac, AccessError>) {
    r.Ok? ==> RolesListed(r.value)
  }

  lemma KnowListed(s: Rbac, role: Symbol)
    requires RolesListed(s)
    ensures RolesListed(Know(s, role)) && role in Know(s, role).known
    ensures forall r :: r in s.known ==> r in Know(s, role).known
  {}

  lemma SetMemberListed(s: Rbac, role: Symbol, who: Address, expiry: Option<nat>)
    requires RolesListed(s) && role in s.known
    ensures RolesListed(SetMember(s, role, who, expiry))
  {}

  lemma InitRolesListed(s: Rbac, admin: Address)
    requires RolesListed(s)
    ensures ResultListed(InitRolesOf(s, admin))
  {
    var a := s.(known := Register(s.known, ADMIN_ROLE), admin := Some(admin));
    assert Know(s.(admin := Some(admin)), ADMIN_ROLE) == a;
    assert RolesListed(a);
    hide Know, RolesListed;
    KnowListed(a, NOMAD_ROLE);
    KnowListed(Know(a, NOMAD_ROLE), INDEXER_ROLE);
    SetMemberListed(Know(Know(a, NOMAD_ROLE), INDEXER_ROLE), ADMIN_ROLE, admin, None);
  }

  lemma GrantListed(s: Rbac, caller: Address, role: Symbol, who: seq<Address>, expiry: Option<nat>, ledger: nat)
    requires RolesListed(s)
    ensures ResultListed(GrantOf(s, caller, role, who, expiry, ledger))
  {
    hide Know, RolesListed, SetMembers;
    KnowListed(s, role);
    SetMembersListed(Know(s, role), role, who, expiry);
  }

  lemma BatchListed(s: Rbac, caller: Address, role: Symbol, who: seq<Address>, expiry: Option<nat>, ledger: nat)
    requires RolesListed(s)
    ensures ResultListed(BatchOf(s, caller, role, who, expiry, ledger))
  {
    hide GrantOf;
    GrantListed(s, caller, role, who, expiry, ledger);
  }

  lemma TransferListed(s: Rbac, caller: Address, newAdmin: Address)
    requires RolesListed(s)
    ensures ResultListed(TransferOf(s, caller, newAdmin))
  {}

  lemma ProposalCallsListed(s: Rbac, caller: Address, op: Operation, id: nat, now: nat)
    requires RolesListed(s)
    ensures ResultListed(CreateOf(s, caller, op, now)) && ResultListed(ApproveOf(s, caller, id))
    ensures ResultListed(ExecuteOf(s, id, now))
  {
    hide Effect;
    if id in s.proposals && s.config.Some? {
      EffectListed(s, s.proposals[id].operation, s.proposals[id].proposer);
    }
  }

  lemma HierarchyListed(s: Rbac, caller: Address, role: Symbol, other: Symbol, on: bool)
    requires RolesListed(s)
    ensures ResultListed(SetParentOf(s, caller, role, other)) && ResultListed(SetEmergencyRoleOf(s, caller, role, on))
  {
    KnowListed(s, role);
    KnowListed(Know(s, role), other);
  }

  lemma TemplatesListed(s: Rbac, caller: Address)
    requires RolesListed(s)
    ensures ResultListed(TemplatesOf(s, caller))
  {
    KnowListed(s, READONLY_ROLE);
    KnowListed(Know(s, READONLY_ROLE), OPERATOR_ROLE);
    KnowListed(Know(Know(s, READONLY_ROLE), OPERATOR_ROLE), ADMIN_ROLE);
  }

  lemma DelegateListed(s: Rbac, delegator: Address, delegatee: Address, role: Symbol, expiry: nat, ledger: nat)
    requires RolesListed(s)
    ensures ResultListed(DelegateOf(s, delegator, delegatee, role, expiry, ledger))
  {
    hide HasRole;
    if HasRole(s, role, delegator, ledger) {
      HolderListed(s, role, delegator, ledger);
    }
  }

  /** Calls that grant nothing and list nothing. */
  lemma OtherCallsListed(s: Rbac, call: Call)
    requires RolesListed(s)
    requires call.op.Revoke1? || call.op.Permit? || call.op.Forbid? || call.op.InitMultiSig? ||
             call.op.SetEmergencyMode? || call.op.Undelegate?
    ensures ResultListed(Apply(s, call))
  {}

  lemma ApplyListed(s: Rbac, call: Call)
    requires RolesListed(s)
    ensures ResultListed(Apply(s, call))
  {
    hide BatchOf, ResultListed, RolesListed, InitMultiSigOf, ByAdmin, InitRolesOf, GrantOf, TransferOf, CreateOf,
      ApproveOf, ExecuteOf, SetParentOf, SetEmergencyRoleOf, DelegateOf, TemplatesOf;
    match call.op
    case InitRoles(admin) => InitRolesListed(s, admin);
    case Grant1(caller, role, grantee, expiry) => GrantListed(s, caller, role, [grantee], expiry, call.ledger);
    case GrantBatch(caller, role, grantees, expiry) => BatchListed(s, caller, role, grantees, expiry, call.ledger);
    case Transfer(caller, newAdmin) => TransferListed(s, caller, newAdmin);
    case Create(caller, operation) => ProposalCallsListed(s, caller, operation, 0, call.now);
    case Approve(caller, id) => ProposalCallsListed(s, caller, TransferAdmin(caller), id, call.now);
    case Execute(caller, id) => ProposalCallsListed(s, caller, TransferAdmin(caller), id, call.now);
    case SetParent(caller, role, parent) => HierarchyListed(s, caller, role, parent, true);
    case SetEmergencyRole(caller, role, on) => HierarchyListed(s, caller, role, role, on);
    case Delegate(caller, delegatee, role, until) => DelegateListed(s, caller, delegatee, role, until, call.ledger);
    case Templates(caller) => TemplatesListed(s, caller);
    case _ => OtherCallsListed(s, call);
  }

  lemma NothingHeld()
    ensures RolesListed(EMPTY_RBAC)
  {}

  /** In every reachable state every held role is listed. */
  lemma {:induction false} ReachableListed(calls: seq<Call>)
    ensures RolesListed(Run(calls))
  {
    hide Apply, RolesListed;
    if calls == [] {
      assert RolesListed(EMPTY_RBAC) by { NothingHeld(); }
    } else {
      ReachableListed(calls[..|calls| - 1]);
      ApplyListed(Run(calls[..|calls| - 1]), calls[|calls| - 1]);
    }
  }

  /** A check that asks only the listed roles. */
  ghost predicate AllowedByListed(s: Rbac, who: Address, action: Symbol, ledger: nat) {
    || (exists i :: 0 <= i < |s.known| && HasRole(s, s.known[i], who, ledger) && HasPermission(s, s.known[i], action))
    || (s.emergencyMode &&
        exists i :: 0 <= i < |s.known| && s.known[i] in s.emergencyRoles && HasRole(s, s.known[i], who, ledger))
  }

  /** Asking only the listed roles loses nothing. */
  lemma ListedSuffice(s: Rbac, who: Address, action: Symbol, ledger: nat)
    requires RolesListed(s)
    ensures AllowedByListed(s, who, action, ledger) <==> Allowed(s, who, action, ledger)
  {
    hide HasRole, HasPermission, RolesListed;
    forall role | HasRole(s, role, who, ledger)
      ensures exists i :: 0 <= i < |s.known| && s.known[i] == role
    {
      HolderListed(s, role, who, ledger);
    }
  }

  // ----- what grants and executed operations mean ------------------------------------------------

  /** Whether a delegation alone would give the role. */
  predicate DelegatedTo(s: Rbac, role: Symbol, who: Address, ledger: nat) {
    var g := Grant(role, who);
    g in s.delegations && s.delegations[g].active && ledger < s.delegations[g].expiry
  }

  /**
   From `s` to `t` exactly the named holder, permission, admin or configuration has changed. The role, address,
   action and ledger a reader asks about are arbitrary.
   */
  ghost predicate Performed(s: Rbac, t: Rbac, op: Operation, proposer: Address,
                            r: Symbol, who: Address, action: Symbol, ledger: nat)
  {
    var held, holds := HasRole(s, r, who, ledger), HasRole(t, r, who, ledger);
    var could, can := Permission(r, action) in s.permissions, Permission(r, action) in t.permissions;
    && SameElsewhere(s, t)
    && match op
       case GrantRole(role, grantee, expiry) =>
         && holds == (if (r, who) == (role, grantee) then expiry.Some? ==> ledger < expiry.value else held)
         && can == could && t.admin == s.admin && t.config == s.config
       case RevokeRole(role, revokee) =>
         && holds == (if (r, who) == (role, revokee) then DelegatedTo(s, r, who, ledger) else held)
         && can == could && t.admin == s.admin && t.config == s.config
       case GrantPermission(role, granted) =>
         && holds == held && can == ((r, action) == (role, granted) || could)
         && t.admin == s.admin && t.config == s.config
       case RevokePermission(role, revoked) =>
         && holds == held && can == ((r, action) != (role, revoked) && could)
         && t.admin == s.admin && t.config == s.config
       case TransferAdmin(newAdmin) =>
         && t.admin == Some(newAdmin)
         && holds == (if (r, who) == (ADMIN_ROLE, newAdmin) then true
                      else if (r, who) == (ADMIN_ROLE, proposer) then DelegatedTo(s, r, who, ledger)
                      else held)
         && can == could && t.config == s.config
       case UpdateMultiSig(config) =>
         && holds == held && can == could && t.admin == s.admin && t.config == Some(config)
  }

  /** What no executed operation touches. */
  predicate SameElsewhere(s: Rbac, t: Rbac) {
    && t.delegations == s.delegations && t.parents == s.parents && t.signers == s.signers
    && t.emergencyMode == s.emergencyMode && t.emergencyRoles == s.emergencyRoles
    && t.approvals == s.approvals && t.counter == s.counter
  }

  /** An operation does what its name says. */
  lemma EffectMeans(s: Rbac, op: Operation, proposer: Address, r: Symbol, who: Address, action: Symbol, ledger: nat)
    ensures Performed(s, Effect(s, op, proposer), op, proposer, r, who, action, ledger)
  {
    hide Register;
  }

  lemma {:induction false} SetMembersMeans(s: Rbac, role: Symbol, who: seq<Address>, expiry: Option<nat>, r: Symbol,
                                           a: Address, ledger: nat)
    ensures HasRole(SetMembers(s, role, who, expiry), r, a, ledger) ==
            if r == role && a in who then ExpiryOk(expiry, ledger) else HasRole(s, r, a, ledger)
  {
    if who != [] {
      var front, last := who[..|who| - 1], who[|who| - 1];
      assert who == front + [last];
      SetMembersMeans(s, role, front, expiry, r, a, ledger);
    }
  }

  /** A successful grant, single or batch, gives the role to exactly the named addresses until it expires. */
  lemma GrantMeans(s: Rbac, caller: Address, role: Symbol, who: seq<Address>, expiry: Option<nat>, ledger: nat,
                   r: Symbol, a: Address, later: nat)
    requires GrantOf(s, caller, role, who, expiry, ledger).Ok?
    ensures HasRole(GrantOf(s, caller, role, who, expiry, ledger).value, r, a, later) ==
            if r == role && a in who then ExpiryOk(expiry, later) else HasRole(s, r, a, later)
  {
    SetMembersMeans(Know(s, role), role, who, expiry, r, a, later);
  }

  // ----- a dead membership hides a live delegation -----------------------------------------------

  lemma RunOneMore(calls: seq<Call>, call: Call)
    ensures Run(calls + [call]) == Step(Run(calls), call)
  {
    assert (calls + [call])[..|calls|] == calls;
  }

  lemma OneMember(s: Rbac, role: Symbol, who: Address, expiry: Option<nat>)
    ensures SetMembers(s, role, [who], expiry) == SetMember(s, role, who, expiry)
  {
    assert [who][..0] == [];
  }

  lemma GrantStep(s: Rbac, boss: Address, role: Symbol, who: Address, expiry: Option<nat>, now: nat, ledger: nat)
    requires s.admin == Some(boss) && ExpiryOk(expiry, ledger)
    ensures Step(s, Call(Grant1(boss, role, who, expiry), now, ledger)) == SetMember(Know(s, role), role, who, expiry)
  {
    OneMember(Know(s, role), role, who, expiry);
  }

  lemma DelegateStep(s: Rbac, from: Address, to: Address, role: Symbol, until: nat, now: nat, ledger: nat)
    requires HasRole(s, role, from, ledger) && ledger < until
    ensures Step(s, Call(Delegate(from, to, role, until), now, ledger)) ==
            s.(delegations := s.delegations[Grant(role, to) := Delegation(from, until, true)])
  {
    hide HasRole;
  }

  lemma FirstStep(boss: Address)
    ensures Run([Call(InitRoles(boss), 0, 1)]).admin == Some(boss)
  {
    RunOneMore([], Call(InitRoles(boss), 0, 1));
    assert [] + [Call(InitRoles(boss), 0, 1)] == [Call(InitRoles(boss), 0, 1)];
  }

  /** A run after which someone with a live delegation of a role does not hold it: their own expired grant decides. */
  lemma ExpiredGrantHidesDelegation() returns (calls: seq<Call>, role: Symbol, who: Address, ledger: nat)
    ensures var s, g := Run(calls), Grant(role, who);
            && g in s.delegations && s.delegations[g].active && ledger < s.delegations[g].expiry
            && !HasRole(s, role, who, ledger)
  {
    hide Run, Step, Know;
    role, who, ledger := Symbol("pilot"), Address(2), 10;
    var boss, peer := Address(0), Address(1);
    var c1 := [Call(InitRoles(boss), 0, 1)];
    var c2 := c1 + [Call(Grant1(boss, role, peer, None), 0, 1)];
    var c3 := c2 + [Call(Grant1(boss, role, who, Some(5)), 0, 1)];
    calls := c3 + [Call(Delegate(peer, who, role, 100), 0, 2)];
    FirstStep(boss);
    RunOneMore(c1, Call(Grant1(boss, role, peer, None), 0, 1));
    KnowKeeps(Run(c1), role);
    GrantStep(Run(c1), boss, role, peer, None, 0, 1);
    RunOneMore(c2, Call(Grant1(boss, role, who, Some(5)), 0, 1));
    KnowKeeps(Run(c2), role);
    GrantStep(Run(c2), boss, role, who, Some(5), 0, 1);
    RunOneMore(c3, Call(Delegate(peer, who, role, 100), 0, 2));
    DelegateStep(Run(c3), peer, who, role, 100, 0, 2);
  }

  lemma KnowKeeps(s: Rbac, role: Symbol)
    ensures Know(s, role).admin == s.admin && Know(s, role).members == s.members
  {}

  // ----- when a delegation counts ------------------------------------------------------------------

  /** Whether the membership record alone gives the role. */
  predicate LiveMember(s: Rbac, role: Symbol, who: Address, ledger: nat) {
    var g := Grant(role, who);
    g in s.members && s.members[g].active && ExpiryOk(s.members[g].expiry, ledger)
  }

  /** The role is held exactly by those with a live record or a live delegation. */
  predicate EitherCounts(s: Rbac, role: Symbol, who: Address, ledger: nat) {
    HasRole(s, role, who, ledger) <==> LiveMember(s, role, who, ledger) || DelegatedTo(s, role, who, ledger)
  }

  /** At one ledger either counts exactly when no dead record stands beside a live delegation. */
  lemma EitherCountsExactly(s: Rbac, role: Symbol, who: Address, ledger: nat)
    ensures EitherCounts(s, role, who, ledger) <==>
            !(Grant(role, who) in s.members && !LiveMember(s, role, who, ledger) && DelegatedTo(s, role, who, ledger))
  {}

  /** The delegation lasts longer than the record beside it. */
  predicate Outlived(s: Rbac, role: Symbol, who: Address) {
    var g := Grant(role, who);
    && g in s.members && g in s.delegations && s.delegations[g].active
    && if s.members[g].active
       then s.members[g].expiry.Some? && s.members[g].expiry.value < s.delegations[g].expiry
       else s.delegations[g].expiry > 0
  }

  /** At all ledgers either counts exactly when no delegation outlives a record of its holder. */
  lemma EitherAlwaysCountsExactly(s: Rbac, role: Symbol, who: Address)
    ensures (forall ledger: nat :: EitherCounts(s, role, who, ledger)) <==> !Outlived(s, role, who)
  {
    if Outlived(s, role, who) {
      var g := Grant(role, who);
      var dead: nat := if s.members[g].active then s.members[g].expiry.value else 0;
      assert !EitherCounts(s, role, who, dead);
    }
  }

  /** A successful call, single, batch or executed, that grants the role with an expiry. */
  predicate GrantsUntil(s: Rbac, call: Call, role: Symbol, who: Address) {
    && Apply(s, call).Ok?
    && match call.op
       case Grant1(_, r, grantee, expiry) => r == role && grantee == who && expiry.Some?
       case GrantBatch(_, r, grantees, expiry) => r == role && who in grantees && expiry.Some?
       case Execute(_, id) =>
         && id in s.proposals && s.proposals[id].operation.GrantRole?
         && s.proposals[id].operation.role == role && s.proposals[id].operation.grantee == who
         && s.proposals[id].operation.expiry.Some?
       case _ => false
  }

  ghost predicate NeverUntil(calls: seq<Call>, role: Symbol, who: Address) {
    forall i :: 0 <= i < |calls| ==> !GrantsUntil(Run(calls[..i]), calls[i], role, who)
  }

  predicate Permanent(s: Rbac, role: Symbol, who: Address) {
    Grant(role, who) in s.members ==> s.members[Grant(role, who)] == RoleRecord(true, None)
  }

  lemma {:induction false} SetMembersPermanent(s: Rbac, r: Symbol, whos: seq<Address>, expiry: Option<nat>,
                                               role: Symbol, who: Address)
    requires Permanent(s, role, who) && (r == role && who in whos ==> expiry.None?)
    ensures Permanent(SetMembers(s, r, whos, expiry), role, who)
  {
    if whos != [] {
      assert whos == whos[..|whos| - 1] + [whos[|whos| - 1]];
      SetMembersPermanent(s, r, whos[..|whos| - 1], expiry, role, who);
    }
  }

  lemma GrantPermanent(s: Rbac, call: Call, role: Symbol, who: Address)
    requires call.op.Grant1? || call.op.GrantBatch?
    requires Permanent(s, role, who) && !GrantsUntil(s, call, role, who)
    ensures Permanent(Step(s, call), role, who)
  {
    hide SetMembers;
    if Apply(s, call).Ok? {
      var grantees := if call.op.Grant1? then [call.op.grantee] else call.op.grantees;
      SetMembersPermanent(Know(s, call.op.role), call.op.role, grantees, call.op.expiry, role, who);
    }
  }

  /** The calls that write membership records. */
  predicate WritesMembers(op: Op) {
    op.InitRoles? || op.Grant1? || op.GrantBatch? || op.Revoke1? || op.Transfer? || op.Execute?
  }

  lemma HierarchyKeepsMembers(s: Rbac, call: Call)
    requires call.op.SetParent? || call.op.SetEmergencyRole? || call.op.Templates?
    ensures Step(s, call).members == s.members
  {
    hide Register;
  }

  lemma ProposalsKeepMembers(s: Rbac, call: Call)
    requires call.op.InitMultiSig? || call.op.Create? || call.op.Approve?
    ensures Step(s, call).members == s.members
  {}

  lemma OthersKeepMembers(s: Rbac, call: Call)
    requires !WritesMembers(call.op)
    ensures Step(s, call).members == s.members
  {
    hide HasRole, SetParentOf, SetEmergencyRoleOf, TemplatesOf, InitMultiSigOf, CreateOf, ApproveOf;
    if call.op.SetParent? || call.op.SetEmergencyRole? || call.op.Templates? {
      HierarchyKeepsMembers(s, call);
    } else if call.op.InitMultiSig? || call.op.Create? || call.op.Approve? {
      ProposalsKeepMembers(s, call);
    }
  }

  lemma AdminPermanent(s: Rbac, call: Call, role: Symbol, who: Address)
    requires call.op.InitRoles? || call.op.Revoke1? || call.op.Transfer?
    requires Permanent(s, role, who)
    ensures Permanent(Step(s, call), role, who)
  {
    hide Register;
  }

  lemma EffectPermanent(s: Rbac, op: Operation, proposer: Address, role: Symbol, who: Address)
    requires Permanent(s, role, who)
    requires op.GrantRole? && op.role == role && op.grantee == who ==> op.expiry.None?
    ensures Permanent(Effect(s, op, proposer), role, who)
  {
    hide Register;
  }

  lemma ExecutePermanent(s: Rbac, call: Call, role: Symbol, who: Address)
    requires call.op.Execute? && Permanent(s, role, who) && !GrantsUntil(s, call, role, who)
    ensures Permanent(Step(s, call), role, who)
  {
    hide Effect;
    if Apply(s, call).Ok? {
      var p := s.proposals[call.op.id];
      EffectPermanent(s, p.operation, p.proposer, role, who);
    }
  }

  lemma StepPermanent(s: Rbac, call: Call, role: Symbol, who: Address)
    requires Permanent(s, role, who) && !GrantsUntil(s, call, role, who)
    ensures Permanent(Step(s, call), role, who)
  {
    hide Step, GrantsUntil;
    if call.op.Grant1? || call.op.GrantBatch? {
      GrantPermanent(s, call, role, who);
    } else if call.op.Execute? {
      ExecutePermanent(s, call, role, who);
    } else if WritesMembers(call.op) {
      AdminPermanent(s, call, role, who);
    } else {
      OthersKeepMembers(s, call);
    }
  }

  lemma {:induction false} StaysPermanent(calls: seq<Call>, role: Symbol, who: Address)
    requires NeverUntil(calls, role, who)
    ensures Permanent(Run(calls), role, who)
  {
    hide Step, GrantsUntil;
    if calls != [] {
      var before := calls[..|calls| - 1];
      forall i | 0 <= i < |before| ensures !GrantsUntil(Run(before[..i]), before[i], role, who) {
        assert before[..i] == calls[..i];
      }
      StaysPermanent(before, role, who);
      StepPermanent(Run(before), calls[|calls| - 1], role, who);
    }
  }

  /** In a run without expiring grants of the role to someone, they hold it by a live record or a live delegation. */
  lemma NoExpiryNoHiding(calls: seq<Call>, role: Symbol, who: Address, ledger: nat)
    requires NeverUntil(calls, role, who)
    ensures EitherCounts(Run(calls), role, who, ledger)
  {
    StaysPermanent(calls, role, who);
  }
}
