/**
 Multi-signature proposals over whole runs: counted approvals, one execution, quorum and timelock.
 The history of a proposal is read off the calls alone; the stored record is proved to match it.
 */
module AccessProposals {
  import opened Host
  import opened AccessModel
  import opened AccessRuns

  // ----- the history of a proposal, from the calls ---------------------------------------------

  /** When, by whom and for what a proposal was created, and the timelock in force then. */
  datatype Birth = Birth(at: nat, timelock: nat, proposer: Address, operation: Operation)

  predicate Creates(s: Rbac, call: Call, id: nat) {
    call.op.Create? && Apply(s, call).Ok? && id == s.counter + 1
  }

  predicate Approves(s: Rbac, call: Call, id: nat) {
    call.op.Approve? && Apply(s, call).Ok? && id == call.op.id
  }

  predicate Executes(s: Rbac, call: Call, id: nat) {
    call.op.Execute? && Apply(s, call).Ok? && id == call.op.id
  }

  function BirthOf(calls: seq<Call>, id: nat): Option<Birth> {
    if calls == [] then None
    else
      var before, call := calls[..|calls| - 1], calls[|calls| - 1];
      var s := Run(before);
      if Creates(s, call, id) && s.config.Some?
      then Some(Birth(call.now, s.config.value.timelock, call.op.caller, call.op.operation))
      else BirthOf(before, id)
  }

  /** Everyone whose successful call created or approved the proposal. */
  function Approvals(calls: seq<Call>, id: nat): set<Address> {
    if calls == [] then {}
    else
      var before, call := calls[..|calls| - 1], calls[|calls| - 1];
      Approvals(before, id) +
      if Creates(Run(before), call, id) || Approves(Run(before), call, id) then {call.op.caller} else {}
  }

  function Executions(calls: seq<Call>, id: nat): nat {
    if calls == [] then 0
    else
      var before, call := calls[..|calls| - 1], calls[|calls| - 1];
      Executions(before, id) + if Executes(Run(before), call, id) then 1 else 0
  }

  // ----- the stored record matches the history ------------------------------------------------------

  ghost predicate Matches(s: Rbac, id: nat, birth: Option<Birth>, approvals: set<Address>, executions: nat) {
    && ApproversOf(s, id) == approvals
    && (id in s.proposals <==> birth.Some?)
    && (id > s.counter ==> id !in s.proposals)
    && if id in s.proposals then
         var p := s.proposals[id];
         && p.approvalCount == |approvals|
         && p.createdAt == birth.value.at && p.executionTime == birth.value.at + birth.value.timelock
         && p.proposer == birth.value.proposer && p.operation == birth.value.operation
         && executions == if p.executed then 1 else 0
       else approvals == {} && executions == 0
  }

  predicate SameBook(s: Rbac, t: Rbac) {
    t.proposals == s.proposals && t.approvals == s.approvals && t.counter == s.counter
  }

  predicate ResultSameBook(s: Rbac, r: Result<Rbac, AccessError>) {
    r.Ok? ==> SameBook(s, r.value)
  }

  lemma RoleCallsKeepBook(s: Rbac, call: Call)
    requires call.op.InitRoles? || call.op.Transfer? || call.op.Templates? || call.op.SetParent? ||
             call.op.SetEmergencyRole?
    ensures ResultSameBook(s, Apply(s, call))
  {
    hide Register;
  }

  lemma GrantCallsKeepBook(s: Rbac, call: Call)
    requires call.op.Grant1? || call.op.GrantBatch?
    ensures ResultSameBook(s, Apply(s, call))
  {
    hide SetMembers;
    match call.op
    case Grant1(caller, role, grantee, expiry) => SetMembersKeepProposals(Know(s, role), role, [grantee], expiry);
    case GrantBatch(caller, role, grantees, expiry) => SetMembersKeepProposals(Know(s, role), role, grantees, expiry);
  }

  lemma SmallCallsKeepBook(s: Rbac, call: Call)
    requires call.op.Revoke1? || call.op.Permit? || call.op.Forbid? || call.op.InitMultiSig? ||
             call.op.SetEmergencyMode? || call.op.Delegate? || call.op.Undelegate?
    ensures ResultSameBook(s, Apply(s, call))
  {
    hide HasRole;
  }

  /** The proposal book is written by three calls only. */
  lemma OtherCallsKeepBook(s: Rbac, call: Call)
    requires !call.op.Create? && !call.op.Approve? && !call.op.Execute?
    ensures SameBook(s, Step(s, call))
  {
    hide Apply;
    if call.op.Grant1? || call.op.GrantBatch? {
      GrantCallsKeepBook(s, call);
    } else if call.op.InitRoles? || call.op.Transfer? || call.op.Templates? || call.op.SetParent? ||
              call.op.SetEmergencyRole? {
      RoleCallsKeepBook(s, call);
    } else {
      SmallCallsKeepBook(s, call);
    }
  }

  lemma {:induction false} SetMembersKeepProposals(s: Rbac, role: Symbol, who: seq<Address>, expiry: Option<nat>)
    ensures SameBook(s, SetMembers(s, role, who, expiry))
  {
    if who != [] {
      SetMembersKeepProposals(s, role, who[..|who| - 1], expiry);
    }
  }

  lemma EffectKeepsProposals(s: Rbac, op: Operation, proposer: Address)
    ensures SameBook(s, Effect(s, op, proposer))
  {}

  lemma CreateMatches(s: Rbac, caller: Address, op: Operation, now: nat, id: nat, birth: Option<Birth>,
                      approvals: set<Address>, executions: nat)
    requires Matches(s, id, birth, approvals, executions)
    requires CreateOf(s, caller, op, now).Ok?
    ensures s.config.Some?
    ensures var t := CreateOf(s, caller, op, now).value;
            if id == s.counter + 1
            then Matches(t, id, Some(Birth(now, s.config.value.timelock, caller, op)), approvals + {caller}, executions)
            else Matches(t, id, birth, approvals, executions)
  {}

  lemma ApproveMatches(s: Rbac, caller: Address, target: nat, id: nat, birth: Option<Birth>, approvals: set<Address>,
                       executions: nat)
    requires Matches(s, id, birth, approvals, executions)
    requires ApproveOf(s, caller, target).Ok?
    ensures Matches(ApproveOf(s, caller, target).value, id, birth,
                    if id == target then approvals + {caller} else approvals, executions)
  {}

  lemma ExecuteMatches(s: Rbac, target: nat, now: nat, id: nat, birth: Option<Birth>, approvals: set<Address>,
                       executions: nat)
    requires Matches(s, id, birth, approvals, executions)
    requires ExecuteOf(s, target, now).Ok?
    ensures Matches(ExecuteOf(s, target, now).value, id, birth, approvals,
                    if id == target then executions + 1 else executions)
  {
    hide Effect;
    EffectKeepsProposals(s, s.proposals[target].operation, s.proposals[target].proposer);
  }

  lemma BookDecides(s: Rbac, t: Rbac, id: nat, b: Option<Birth>, a: set<Address>, x: nat)
    requires SameBook(s, t) && Matches(s, id, b, a, x)
    ensures Matches(t, id, b, a, x)
  {}

  /** One call keeps the record in step with the history. */
  lemma StepMatches(s: Rbac, call: Call, id: nat, b: Option<Birth>, a: set<Address>, x: nat)
    requires Matches(s, id, b, a, x)
    ensures Creates(s, call, id) ==> s.config.Some?
    ensures Matches(Step(s, call), id,
                    if Creates(s, call, id) && s.config.Some?
                    then Some(Birth(call.now, s.config.value.timelock, call.op.caller, call.op.operation)) else b,
                    a + if Creates(s, call, id) || Approves(s, call, id) then {call.op.caller} else {},
                    x + if Executes(s, call, id) then 1 else 0)
  {
    hide CreateOf, ApproveOf, ExecuteOf, Matches;
    assert a + {} == a;
    match call.op
    case Create(caller, op) =>
      if CreateOf(s, caller, op, call.now).Ok? { CreateMatches(s, caller, op, call.now, id, b, a, x); }
    case Approve(caller, target) =>
      if ApproveOf(s, caller, target).Ok? { ApproveMatches(s, caller, target, id, b, a, x); }
    case Execute(caller, target) =>
      if ExecuteOf(s, target, call.now).Ok? { ExecuteMatches(s, target, call.now, id, b, a, x); }
    case _ =>
      OtherCallsKeepBook(s, call);
      BookDecides(s, Step(s, call), id, b, a, x);
  }

  /** In every run the stored proposal is exactly what the calls so far make it. */
  lemma {:induction false} RecordMatchesHistory(calls: seq<Call>, id: nat)
    ensures Matches(Run(calls), id, BirthOf(calls, id), Approvals(calls, id), Executions(calls, id))
  {
    if calls != [] {
      hide Step, Creates, Approves, Executes, Matches;
      var before, call := calls[..|calls| - 1], calls[|calls| - 1];
      RecordMatchesHistory(before, id);
      StepMatches(Run(before), call, id, BirthOf(before, id), Approvals(before, id), Executions(before, id));
    }
  }

  // ----- what an execution needs ------------------------------------------------------------------

  /** Everyone counted made a successful call for this proposal while being a signer. */
  lemma {:induction false} ApproverWasSigner(calls: seq<Call>, id: nat, who: Address) returns (i: nat)
    requires who in Approvals(calls, id)
    ensures i < |calls| && (Creates(Run(calls[..i]), calls[i], id) || Approves(Run(calls[..i]), calls[i], id))
    ensures calls[i].op.caller == who && IsSigner(Run(calls[..i]), who)
  {
    var before, call := calls[..|calls| - 1], calls[|calls| - 1];
    if who in Approvals(before, id) {
      i := ApproverWasSigner(before, id, who);
      assert calls[..i] == before[..i];
    } else {
      i := |calls| - 1;
    }
  }

  /**
   An operation takes effect only once, with at least the approvals required at that moment counted
   over distinct callers, and no earlier than its creation time plus the timelock in force at creation.
   */
  lemma ExecutionNeedsQuorumAndTimelock(calls: seq<Call>, call: Call, id: nat)
    requires Executes(Run(calls), call, id)
    ensures Executions(calls, id) == 0 && Executions(calls + [call], id) == 1
    ensures Run(calls).config.Some? && |Approvals(calls, id)| >= Run(calls).config.value.required
    ensures BirthOf(calls, id).Some?
    ensures call.now >= BirthOf(calls, id).value.at + BirthOf(calls, id).value.timelock
  {
    hide Effect;
    RecordMatchesHistory(calls, id);
    assert (calls + [call])[..|calls|] == calls;
  }

  /** No run executes a proposal twice, and its count is the number of distinct approvers. */
  lemma AtMostOneExecution(calls: seq<Call>, id: nat)
    ensures Executions(calls, id) <= 1
    ensures id in Run(calls).proposals ==> Run(calls).proposals[id].approvalCount == |Approvals(calls, id)|
  {
    RecordMatchesHistory(calls, id);
  }

  /** Exactly when a proposal can be executed, read off its history. */
  lemma ExecutesExactly(calls: seq<Call>, call: Call, id: nat)
    requires call.op.Execute? && call.op.id == id
    ensures Executes(Run(calls), call, id) <==>
            && BirthOf(calls, id).Some? && Executions(calls, id) == 0
            && call.now >= BirthOf(calls, id).value.at + BirthOf(calls, id).value.timelock
            && Run(calls).config.Some? && |Approvals(calls, id)| >= Run(calls).config.value.required
  {
    hide Effect;
    RecordMatchesHistory(calls, id);
  }

  /** Exactly when a proposal can be approved: by a signer who has not approved it, before it is executed. */
  lemma ApprovesExactly(calls: seq<Call>, call: Call, id: nat)
    requires call.op.Approve? && call.op.id == id
    ensures Approves(Run(calls), call, id) <==>
            && BirthOf(calls, id).Some? && Executions(calls, id) == 0
            && Run(calls).config.Some? && IsSigner(Run(calls), call.op.caller)
            && call.op.caller !in Approvals(calls, id)
            && |Approvals(calls, id)| < U32_MAX
  {
    RecordMatchesHistory(calls, id);
  }

  /** An execution performs the operation its proposal was created with, on behalf of the one who created it. */
  lemma ExecutionPerforms(calls: seq<Call>, call: Call, id: nat, r: Symbol, who: Address, action: Symbol, ledger: nat)
    requires Executes(Run(calls), call, id)
    ensures BirthOf(calls, id).Some?
    ensures Performed(Run(calls), Step(Run(calls), call), BirthOf(calls, id).value.operation,
                      BirthOf(calls, id).value.proposer, r, who, action, ledger)
  {
    hide Effect, Performed;
    RecordMatchesHistory(calls, id);
    var s := Run(calls);
    var p := s.proposals[id];
    EffectMeans(s, p.operation, p.proposer, r, who, action, ledger);
    BookIsNoObservation(s, Effect(s, p.operation, p.proposer), s.proposals[id := p.(executed := true)],
                        p.operation, p.proposer, r, who, action, ledger);
  }

  lemma BookIsNoObservation(s: Rbac, t: Rbac, book: map<nat, Proposal>, op: Operation, proposer: Address,
                            r: Symbol, who: Address, action: Symbol, ledger: nat)
    requires Performed(s, t, op, proposer, r, who, action, ledger)
    ensures Performed(s, t.(proposals := book), op, proposer, r, who, action, ledger)
  {}
}
