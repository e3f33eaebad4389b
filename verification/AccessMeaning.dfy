/**
 What every call on the access control does, as a reader sees it: when it succeeds, and who holds which
 role, what each role permits and who administers it afterwards.
 */
module AccessMeaning {
  import opened Host
  import opened AccessModel
  import opened AccessRuns

  // ----- when a call succeeds --------------------------------------------------------------------

  /** The conditions under which a call is accepted. */
  predicate Acceptable(s: Rbac, call: Call) {
    match call.op
    case InitRoles(_) => s.admin == None
    case Grant1(caller, _, _, expiry) => s.admin == Some(caller) && (expiry.Some? ==> call.ledger < expiry.value)
    case GrantBatch(caller, _, grantees, expiry) =>
      s.admin == Some(caller) && |grantees| <= 5 && (expiry.Some? ==> call.ledger < expiry.value)
    case Revoke1(caller, _, _) => s.admin == Some(caller)
    case Permit(caller, _, _) => s.admin == Some(caller)
    case Forbid(caller, _, _) => s.admin == Some(caller)
    case Transfer(caller, _) => s.admin == Some(caller)
    case InitMultiSig(caller, signers, required, _) => s.admin == Some(caller) && 1 <= required <= |signers|
    case Create(caller, _) =>
      && s.config.Some? && s.config.value.enabled && s.signers.Some? && caller in s.signers.value
      && s.counter < U64_MAX && call.now + s.config.value.timelock <= U64_MAX
    case Approve(caller, id) =>
      && s.config.Some? && s.signers.Some? && caller in s.signers.value
      && id in s.proposals && !s.proposals[id].executed && s.proposals[id].approvalCount < U32_MAX
      && (id in s.approvals ==> caller !in s.approvals[id])
    case Execute(_, id) =>
      && s.config.Some? && id in s.proposals && !s.proposals[id].executed
      && s.proposals[id].approvalCount >= s.config.value.required && call.now >= s.proposals[id].executionTime
    case SetParent(caller, role, parent) => s.admin == Some(caller) && role != parent
    case SetEmergencyMode(caller, _) => s.admin == Some(caller)
    case SetEmergencyRole(caller, _, _) => s.admin == Some(caller)
    case Delegate(caller, _, role, until) => HasRole(s, role, caller, call.ledger) && call.ledger < until
    case Undelegate(_, _, _) => true
    case Templates(caller) => s.admin == Some(caller)
  }

  /** A call succeeds exactly under its conditions, and a call that fails changes nothing. */
  lemma SucceedsExactly(s: Rbac, call: Call)
    ensures Apply(s, call).Ok? <==> Acceptable(s, call)
    ensures !Acceptable(s, call) ==> Step(s, call) == s
  {
    hide HasRole, Effect, SetMembers, Know;
  }

  // ----- what a call changes ------------------------------------------------------------------------

  /** Whether `who` holds `r` after a call other than an execution. */
  predicate HolderAfter(s: Rbac, op: Op, r: Symbol, who: Address, ledger: nat) {
    var held := HasRole(s, r, who, ledger);
    match op
    case InitRoles(admin) => (r, who) == (ADMIN_ROLE, admin) || held
    case Grant1(_, role, grantee, expiry) =>
      if (r, who) == (role, grantee) then expiry.Some? ==> ledger < expiry.value else held
    case GrantBatch(_, role, grantees, expiry) =>
      if r == role && who in grantees then expiry.Some? ==> ledger < expiry.value else held
    case Revoke1(_, role, revokee) => if (r, who) == (role, revokee) then DelegatedTo(s, r, who, ledger) else held
    case Transfer(caller, newAdmin) =>
      if (r, who) == (ADMIN_ROLE, newAdmin) then true
      else if (r, who) == (ADMIN_ROLE, caller) then DelegatedTo(s, r, who, ledger)
      else held
    case Delegate(_, delegatee, role, until) =>
      if (r, who) == (role, delegatee) && Grant(r, who) !in s.members then ledger < until else held
    case Undelegate(_, delegatee, role) =>
      if (r, who) == (role, delegatee) then LiveMember(s, r, who, ledger) else held
    case _ => held
  }

  /** Whether `r` itself permits the action after a call other than an execution. */
  predicate PermittedAfter(s: Rbac, op: Op, r: Symbol, action: Symbol) {
    var could := Permission(r, action) in s.permissions;
    match op
    case Permit(_, role, a) => (r, action) == (role, a) || could
    case Forbid(_, role, a) => (r, action) != (role, a) && could
    case Templates(_) =>
      || could
      || (r == Symbol("readonly") && (action == Symbol("read") || action == Symbol("query")))
      || (r == Symbol("operator") && (action == Symbol("operate") || action == Symbol("pause")))
      || (r == Symbol("admin") && (action == Symbol("admin") || action == Symbol("manage")))
    case _ => could
  }

  function ParentAfter(s: Rbac, op: Op, r: Symbol): Option<Symbol> {
    match op
    case SetParent(_, role, parent) => if r == role then Some(parent) else ParentOf(s, r)
    case Templates(_) =>
      if r == Symbol("admin") then Some(Symbol("operator"))
      else if r == Symbol("operator") then Some(Symbol("readonly"))
      else ParentOf(s, r)
    case _ => ParentOf(s, r)
  }

  function ParentOf(s: Rbac, r: Symbol): Option<Symbol> {
    if r in s.parents then Some(s.parents[r]) else None
  }

  function AdminAfter(s: Rbac, op: Op): Option<Address> {
    match op
    case InitRoles(admin) => Some(admin)
    case Transfer(_, newAdmin) => Some(newAdmin)
    case _ => s.admin
  }

  /** From `s` to `t` exactly what the call names has changed, for whatever a reader asks about. */
  ghost predicate Observed(s: Rbac, t: Rbac, op: Op, r: Symbol, who: Address, action: Symbol, ledger: nat) {
    && HasRole(t, r, who, ledger) == HolderAfter(s, op, r, who, ledger)
    && (Permission(r, action) in t.permissions) == PermittedAfter(s, op, r, action)
    && ParentOf(t, r) == ParentAfter(s, op, r)
    && t.admin == AdminAfter(s, op)
    && t.emergencyMode == (if op.SetEmergencyMode? then op.on else s.emergencyMode)
    && (r in t.emergencyRoles) == (if op.SetEmergencyRole? && r == op.role then op.on else r in s.emergencyRoles)
    && t.signers == (if op.InitMultiSig? then Some(op.signers) else s.signers)
    && t.config == (if op.InitMultiSig? then Some(MultiSigConfig(op.required, |op.signers|, op.timelock, true))
                    else s.config)
  }

  lemma GrantsObserved(s: Rbac, call: Call, r: Symbol, who: Address, action: Symbol, ledger: nat)
    requires Apply(s, call).Ok? && (call.op.Grant1? || call.op.GrantBatch?)
    ensures Observed(s, Step(s, call), call.op, r, who, action, ledger)
  {
    hide HasRole, SetMembers;
    var grantees := if call.op.Grant1? then [call.op.grantee] else call.op.grantees;
    GrantMeans(s, call.op.caller, call.op.role, grantees, call.op.expiry, call.ledger, r, who, ledger);
    SetMembersOnly(Know(s, call.op.role), call.op.role, grantees, call.op.expiry);
  }

  lemma {:induction false} SetMembersOnly(s: Rbac, role: Symbol, who: seq<Address>, expiry: Option<nat>)
    ensures SetMembers(s, role, who, expiry) == s.(members := SetMembers(s, role, who, expiry).members)
  {
    if who != [] {
      SetMembersOnly(s, role, who[..|who| - 1], expiry);
    }
  }

  lemma AdminCallsObserved(s: Rbac, call: Call, r: Symbol, who: Address, action: Symbol, ledger: nat)
    requires Apply(s, call).Ok? && (call.op.InitRoles? || call.op.Revoke1? || call.op.Transfer?)
    ensures Observed(s, Step(s, call), call.op, r, who, action, ledger)
  {
    hide Register;
  }

  lemma DelegationsObserved(s: Rbac, call: Call, r: Symbol, who: Address, action: Symbol, ledger: nat)
    requires Apply(s, call).Ok? && (call.op.Delegate? || call.op.Undelegate?)
    ensures Observed(s, Step(s, call), call.op, r, who, action, ledger)
  {}

  lemma TemplatesObserved(s: Rbac, call: Call, r: Symbol, who: Address, action: Symbol, ledger: nat)
    requires Apply(s, call).Ok? && call.op.Templates?
    ensures Observed(s, Step(s, call), call.op, r, who, action, ledger)
  {
    hide Register;
  }

  lemma HierarchyObserved(s: Rbac, call: Call, r: Symbol, who: Address, action: Symbol, ledger: nat)
    requires Apply(s, call).Ok? && (call.op.SetParent? || call.op.SetEmergencyRole? || call.op.SetEmergencyMode?)
    ensures Observed(s, Step(s, call), call.op, r, who, action, ledger)
  {
    hide Register;
  }

  lemma OthersObserved(s: Rbac, call: Call, r: Symbol, who: Address, action: Symbol, ledger: nat)
    requires Apply(s, call).Ok?
    requires call.op.Permit? || call.op.Forbid? || call.op.InitMultiSig? || call.op.Create? || call.op.Approve?
    ensures Observed(s, Step(s, call), call.op, r, who, action, ledger)
  {}

  /** Every successful call other than an execution changes exactly what it names. */
  lemma CallMeans(s: Rbac, call: Call, r: Symbol, who: Address, action: Symbol, ledger: nat)
    requires Apply(s, call).Ok? && !call.op.Execute?
    ensures Observed(s, Step(s, call), call.op, r, who, action, ledger)
  {
    hide Apply, Step, Observed;
    match call.op
    case Grant1(_, _, _, _) => GrantsObserved(s, call, r, who, action, ledger);
    case GrantBatch(_, _, _, _) => GrantsObserved(s, call, r, who, action, ledger);
    case InitRoles(_) => AdminCallsObserved(s, call, r, who, action, ledger);
    case Revoke1(_, _, _) => AdminCallsObserved(s, call, r, who, action, ledger);
    case Transfer(_, _) => AdminCallsObserved(s, call, r, who, action, ledger);
    case Delegate(_, _, _, _) => DelegationsObserved(s, call, r, who, action, ledger);
    case Undelegate(_, _, _) => DelegationsObserved(s, call, r, who, action, ledger);
    case Templates(_) => TemplatesObserved(s, call, r, who, action, ledger);
    case SetParent(_, _, _) => HierarchyObserved(s, call, r, who, action, ledger);
    case SetEmergencyRole(_, _, _) => HierarchyObserved(s, call, r, who, action, ledger);
    case SetEmergencyMode(_, _) => HierarchyObserved(s, call, r, who, action, ledger);
    case _ => OthersObserved(s, call, r, who, action, ledger);
  }

  /** Emergency mode is off at first and then as the latest accepted switch left it. */
  function EmergencyAfter(calls: seq<Call>): bool {
    if calls == [] then false
    else
      var before, call := calls[..|calls| - 1], calls[|calls| - 1];
      if call.op.SetEmergencyMode? && Run(before).admin == Some(call.op.caller) then call.op.on
      else EmergencyAfter(before)
  }

  lemma {:induction false} EmergencyIsLatest(calls: seq<Call>)
    ensures Run(calls).emergencyMode == EmergencyAfter(calls)
  {
    if calls != [] {
      hide Apply, Step, Acceptable, Observed;
      var before := calls[..|calls| - 1];
      EmergencyIsLatest(before);
      StepEmergency(Run(before), calls[|calls| - 1]);
    }
  }

  lemma StepEmergency(s: Rbac, call: Call)
    ensures Step(s, call).emergencyMode ==
            if call.op.SetEmergencyMode? && s.admin == Some(call.op.caller) then call.op.on else s.emergencyMode
  {
    hide HasRole, Effect, SetMembers, Register;
    SucceedsExactly(s, call);
    if Apply(s, call).Ok? {
      if call.op.Execute? {
        var p := s.proposals[call.op.id];
        EffectMeans(s, p.operation, p.proposer, ADMIN_ROLE, Address(0), ADMIN_ROLE, 0);
      } else {
        CallMeans(s, call, ADMIN_ROLE, Address(0), ADMIN_ROLE, 0);
      }
    }
  }

  // ----- which way a parent link points ----------------------------------------------------------------

  lemma {:induction false} ChainShifts(s: Rbac, role: Symbol, i: nat)
    requires role in s.parents
    ensures Ancestor(s, role, i + 1) == Ancestor(s, s.parents[role], i)
  {
    if i > 0 {
      ChainShifts(s, role, i - 1);
    } else {
      assert Ancestor(s, role, 0) == Some(role);
    }
  }

  /** A role linked to a parent permits its own actions and those of the first five roles of the parent's chain. */
  lemma ParentInherited(s: Rbac, call: Call, action: Symbol)
    requires call.op.SetParent? && Apply(s, call).Ok?
    ensures var t := Step(s, call);
            HasPermission(t, call.op.role, action) <==>
            || Permission(call.op.role, action) in t.permissions
            || exists i: nat :: i < 5 && GrantedAt(t, call.op.parent, action, i)
  {
    hide Ancestor;
    var t, role, parent := Step(s, call), call.op.role, call.op.parent;
    assert t.parents == s.parents[role := parent];
    RootOfChain(t, role);
    forall i: nat ensures GrantedAt(t, role, action, i + 1) <==> GrantedAt(t, parent, action, i) {
      ChainShifts(t, role, i);
    }
    hide GrantedAt;
    OwnPermission(t, role, action);
    if HasPermission(t, role, action) {
      var i: nat :| i < MAX_CHAIN && GrantedAt(t, role, action, i);
      if i > 0 {
        assert GrantedAt(t, parent, action, i - 1);
      }
    }
  }

  lemma RootOfChain(s: Rbac, role: Symbol)
    ensures Ancestor(s, role, 0) == Some(role)
  {}

  lemma OwnPermission(s: Rbac, role: Symbol, action: Symbol)
    ensures GrantedAt(s, role, action, 0) <==> Permission(role, action) in s.permissions
  {}

  /** So everyone who holds the role may do what the parent's chain permits. */
  lemma HolderInherits(s: Rbac, call: Call, who: Address, action: Symbol, ledger: nat, i: nat)
    requires call.op.SetParent? && Apply(s, call).Ok? && HasRole(s, call.op.role, who, ledger)
    requires i < 5 && GrantedAt(Step(s, call), call.op.parent, action, i)
    ensures Allowed(Step(s, call), who, action, ledger)
  {
    hide Apply, Step, HasRole, GrantedAt, HasPermission;
    ParentInherited(s, call, action);
    CallMeans(s, call, call.op.role, who, action, ledger);
  }
}
