/**
 The members of organizations and whom they report to. Each create, update and delete is
 validated and then applied as one step; together they keep every manager inside the
 organization and every reporting line finite.
 */
module ReportingLines {
  import opened Options
  import opened Sequences

  type Id = nat

  datatype Member = Member(organization: nat, manager: Option<Id>)

  type Members = map<Id, Member>

  datatype Verdict = Accept | NotToThemselves | NotInOrganization | WouldCycle

  // ---------------------------------------------------------------- reporting lines

  /** Managers exist, in the organization of those who report to them. */
  predicate ManagersFit(ms: Members) {
    forall m :: m in ms && ms[m].manager.Some? ==>
                  && ms[m].manager.value in ms
                  && ms[ms[m].manager.value].organization == ms[m].organization
  }

  /** The line upwards from `at` ends within `n` members. */
  predicate Ends(ms: Members, at: Option<Id>, n: nat)
    decreases n
  {
    at.None? || (n > 0 && at.value in ms && Ends(ms, ms[at.value].manager, n - 1))
  }

  ghost predicate LinesEnd(ms: Members) {
    forall m :: m in ms ==> exists n: nat :: Ends(ms, Some(m), n)
  }

  ghost predicate Inv(ms: Members) {
    ManagersFit(ms) && LinesEnd(ms)
  }

  lemma {:induction false} EndsLater(ms: Members, at: Option<Id>, n: nat, more: nat)
    requires Ends(ms, at, n) && n <= more
    ensures Ends(ms, at, more)
    decreases n
  {
    if at.Some? {
      EndsLater(ms, ms[at.value].manager, n - 1, more - 1);
    }
  }

  /** How many members the line upwards has. */
  function Level(ms: Members, at: Option<Id>, n: nat): nat
    requires Ends(ms, at, n)
    decreases n
  {
    if at.None? then 0 else 1 + Level(ms, ms[at.value].manager, n - 1)
  }

  lemma {:induction false} LevelIsUnique(ms: Members, at: Option<Id>, n: nat, n': nat)
    requires Ends(ms, at, n) && Ends(ms, at, n')
    ensures Level(ms, at, n) == Level(ms, at, n')
    decreases n
  {
    if at.Some? {
      LevelIsUnique(ms, ms[at.value].manager, n - 1, n' - 1);
    }
  }

  /** Each member on the path reports to the next. */
  predicate IsPath(ms: Members, path: seq<Id>) {
    forall i :: 0 <= i < |path| - 1 ==> path[i] in ms && ms[path[i]].manager == Some(path[i + 1])
  }

  lemma {:induction false} PathClimbs(ms: Members, path: seq<Id>, n: nat)
    requires IsPath(ms, path) && |path| >= 2 && Ends(ms, Some(path[0]), n)
    ensures Ends(ms, Some(path[|path| - 1]), n)
    ensures Level(ms, Some(path[|path| - 1]), n) < Level(ms, Some(path[0]), n)
  {
    assert ms[path[0]].manager == Some(path[0 + 1]);
    EndsLater(ms, Some(path[1]), n - 1, n);
    LevelIsUnique(ms, Some(path[1]), n - 1, n);
    if |path| > 2 {
      PathClimbs(ms, path[1..], n);
    }
  }

  /** When every line ends, nobody reports to themselves, directly or through others. */
  lemma NobodyReportsToThemselves(ms: Members, path: seq<Id>)
    requires Inv(ms) && IsPath(ms, path) && |path| >= 2
    ensures path[0] != path[|path| - 1]
  {
    assert path[0] in ms;
    var n: nat :| Ends(ms, Some(path[0]), n);
    PathClimbs(ms, path, n);
  }

  // ---------------------------------------------------------------- the walk of the validator

  /** Whether the walk up from `at` leaves without meeting `member` or anyone visited. */
  predicate WalkAccepts(ms: Members, organization: nat, member: Id, at: Option<Id>, visited: set<Id>)
    decreases |ms.Keys - visited|
  {
    if at.None? then true
    else if at.value == member || at.value in visited then false
    else if at.value !in ms || ms[at.value].organization != organization then true
    else
      assert ms.Keys - (visited + {at.value}) < ms.Keys - visited by {
        assert at.value in ms.Keys - visited;
      }
      Fewer(ms.Keys - (visited + {at.value}), ms.Keys - visited);
      WalkAccepts(ms, organization, member, ms[at.value].manager, visited + {at.value})
  }

  function Validate(ms: Members, organization: nat, manager: Option<Id>, member: Option<Id>): Verdict {
    if manager.None? then Accept
    else if member == manager then NotToThemselves
    else if manager.value !in ms || ms[manager.value].organization != organization then NotInOrganization
    else if member.None? then Accept
    else if WalkAccepts(ms, organization, member.value, ms[manager.value].manager, {manager.value}) then Accept
    else WouldCycle
  }

  /** The line upwards ends without passing `member`. */
  predicate EndsWithout(ms: Members, at: Option<Id>, n: nat, member: Id)
    decreases n
  {
    at.None? ||
    (n > 0 && at.value in ms && at.value != member && EndsWithout(ms, ms[at.value].manager, n - 1, member))
  }

  /** In a fitting organization the walk meets nobody twice, so it tells whether it meets `member`. */
  lemma {:induction false} WalkFollowsTheLine(
    ms: Members, organization: nat, member: Id, at: Option<Id>, visited: set<Id>, n: nat, below: nat)
    requires Inv(ms) && Ends(ms, at, n)
    requires at.Some? ==> ms[at.value].organization == organization
    requires forall v :: v in visited ==> Ends(ms, Some(v), below) && Level(ms, Some(v), below) > Level(ms, at, n)
    ensures WalkAccepts(ms, organization, member, at, visited) <==> EndsWithout(ms, at, n, member)
    decreases n
  {
    if at.Some? {
      var id := at.value;
      if id in visited {
        LevelIsUnique(ms, at, n, below);
        assert false;
      }
      if id != member {
        var next := ms[id].manager;
        var high := below + n;
        forall v | v in visited + {id}
          ensures Ends(ms, Some(v), high) && Level(ms, Some(v), high) > Level(ms, next, n - 1)
        {
          if v in visited {
            EndsLater(ms, Some(v), below, high);
            LevelIsUnique(ms, Some(v), below, high);
          } else {
            EndsLater(ms, at, n, high);
            LevelIsUnique(ms, at, n, high);
          }
        }
        WalkFollowsTheLine(ms, organization, member, next, visited + {id}, n - 1, high);
      }
    }
  }

  // ---------------------------------------------------------------- one update

  function WithManager(ms: Members, member: Id, manager: Option<Id>): Members
    requires member in ms
  {
    ms[member := Member(ms[member].organization, manager)]
  }

  lemma {:induction false} UntouchedLine(ms: Members, member: Id, manager: Option<Id>, at: Option<Id>, n: nat)
    requires member in ms && EndsWithout(ms, at, n, member)
    ensures EndsWithout(WithManager(ms, member, manager), at, n, member)
    ensures Ends(WithManager(ms, member, manager), at, n)
    decreases n
  {
    if at.Some? {
      UntouchedLine(ms, member, manager, ms[at.value].manager, n - 1);
    }
  }

  lemma {:induction false} RedirectedLine(ms: Members, member: Id, manager: Option<Id>, k: nat, at: Option<Id>, n: nat)
    requires member in ms && EndsWithout(ms, manager, k, member) && Ends(ms, at, n)
    ensures Ends(WithManager(ms, member, manager), at, n + k)
    decreases n
  {
    if at.Some? {
      if at.value == member {
        UntouchedLine(ms, member, manager, manager, k);
        EndsLater(WithManager(ms, member, manager), manager, k, n + k - 1);
      } else {
        RedirectedLine(ms, member, manager, k, ms[at.value].manager, n - 1);
      }
    }
  }

  /** From `at`, whose line passes `member`, no line ends once `member` reports to it. */
  lemma {:induction false} LoopNeverEnds(ms: Members, member: Id, manager: Option<Id>, at: Option<Id>, n: nat, m: nat)
    requires member in ms && Ends(ms, at, n) && !EndsWithout(ms, at, n, member)
    requires Ends(WithManager(ms, member, manager), at, m)
    ensures exists k: nat :: k <= m && Ends(WithManager(ms, member, manager), Some(member), k)
    decreases n
  {
    if at.value != member {
      LoopNeverEnds(ms, member, manager, ms[at.value].manager, n - 1, m - 1);
    }
  }

  lemma {:induction false} NoEndForMember(ms: Members, member: Id, manager: Option<Id>, n: nat, m: nat)
    requires member in ms && Ends(ms, manager, n) && !EndsWithout(ms, manager, n, member)
    ensures !Ends(WithManager(ms, member, manager), Some(member), m)
    decreases m
  {
    if Ends(WithManager(ms, member, manager), Some(member), m) {
      LoopNeverEnds(ms, member, manager, manager, n, m - 1);
      var k: nat :| k <= m - 1 && Ends(WithManager(ms, member, manager), Some(member), k);
      NoEndForMember(ms, member, manager, n, k);
    }
  }

  /** The validator accepts a new manager exactly when the result still fits. */
  lemma UpdateIsAcceptedIffItFits(ms: Members, member: Id, manager: Option<Id>)
    requires Inv(ms) && member in ms
    ensures Validate(ms, ms[member].organization, manager, Some(member)).Accept?
       <==> Inv(WithManager(ms, member, manager))
  {
    var organization := ms[member].organization;
    var after := WithManager(ms, member, manager);
    if manager.None? {
      FittingUpdate(ms, member, manager, 0);
    } else if manager.value == member {
      assert after[member].manager == Some(member);
      if Inv(after) {
        assert IsPath(after, [member, member]);
        NobodyReportsToThemselves(after, [member, member]);
      }
    } else if manager.value in ms && ms[manager.value].organization == organization {
      var n: nat :| Ends(ms, manager, n);
      WalkFollowsTheLine(ms, organization, member, ms[manager.value].manager, {manager.value}, n - 1, n);
      if EndsWithout(ms, manager, n, member) {
        FittingUpdate(ms, member, manager, n);
      } else {
        LoopingUpdate(ms, member, manager, n);
      }
    } else {
      assert after[member].manager == manager;
    }
  }

  lemma FittingUpdate(ms: Members, member: Id, manager: Option<Id>, n: nat)
    requires Inv(ms) && member in ms && EndsWithout(ms, manager, n, member)
    requires manager.Some? ==> manager.value in ms && ms[manager.value].organization == ms[member].organization
    ensures Inv(WithManager(ms, member, manager))
  {
    var after := WithManager(ms, member, manager);
    forall m | m in after
      ensures exists k: nat :: Ends(after, Some(m), k)
    {
      var k: nat :| Ends(ms, Some(m), k);
      RedirectedLine(ms, member, manager, n, Some(m), k);
    }
  }

  lemma LoopingUpdate(ms: Members, member: Id, manager: Option<Id>, n: nat)
    requires member in ms && Ends(ms, manager, n) && !EndsWithout(ms, manager, n, member)
    ensures !LinesEnd(WithManager(ms, member, manager))
  {
    var after := WithManager(ms, member, manager);
    if LinesEnd(after) {
      assert member in after;
      var k: nat :| Ends(after, Some(member), k);
      NoEndForMember(ms, member, manager, n, k);
    }
  }

  // ---------------------------------------------------------------- creating and deleting

  lemma {:induction false} CreatedLine(ms: Members, id: Id, created: Member, at: Option<Id>, n: nat)
    requires id !in ms && Ends(ms, at, n)
    ensures Ends(ms[id := created], at, n)
    decreases n
  {
    if at.Some? {
      CreatedLine(ms, id, created, ms[at.value].manager, n - 1);
    }
  }

  /** A new member is accepted exactly when the result still fits. */
  lemma CreateIsAcceptedIffItFits(ms: Members, id: Id, organization: nat, manager: Option<Id>)
    requires Inv(ms) && id !in ms && manager != Some(id)
    ensures Validate(ms, organization, manager, None).Accept? <==> Inv(ms[id := Member(organization, manager)])
  {
    var created := Member(organization, manager);
    var after := ms[id := created];
    if Validate(ms, organization, manager, None).Accept? {
      forall m | m in after
        ensures exists k: nat :: Ends(after, Some(m), k)
      {
        if m == id {
          var k: nat := EndOf(ms, manager);
          CreatedLine(ms, id, created, manager, k);
          assert Ends(after, Some(id), k + 1);
        } else {
          var k: nat :| Ends(ms, Some(m), k);
          CreatedLine(ms, id, created, Some(m), k);
        }
      }
    } else {
      assert after[id].manager == manager;
    }
  }

  lemma EndOf(ms: Members, at: Option<Id>) returns (n: nat)
    requires Inv(ms) && (at.Some? ==> at.value in ms)
    ensures Ends(ms, at, n)
  {
    n := 0;
    if at.Some? {
      n :| Ends(ms, at, n);
    }
  }

  /** The reports of a member pass to that member's manager. */
  function Reassigned(ms: Members, id: Id): Members
    requires id in ms
  {
    map m | m in ms ::
      if ms[m].manager == Some(id) && ms[m].organization == ms[id].organization
      then Member(ms[m].organization, ms[id].manager)
      else ms[m]
  }

  function Deleted(ms: Members, id: Id): Members
    requires id in ms
  {
    Reassigned(ms, id) - {id}
  }

  /** Past a deleted member, lines go on to that member's manager. */
  lemma {:induction false} ShortenedLine(ms: Members, id: Id, at: Option<Id>, n: nat)
    requires Inv(ms) && id in ms && Ends(ms, at, n) && at != Some(id)
    ensures Ends(Deleted(ms, id), at, n)
    decreases n
  {
    if at.Some? {
      var next := ms[at.value].manager;
      if next == Some(id) {
        var over := ms[id].manager;
        if over == Some(id) {
          assert IsPath(ms, [id, id]);
          NobodyReportsToThemselves(ms, [id, id]);
        }
        EndsLater(ms, over, n - 2, n - 1);
        ShortenedLine(ms, id, over, n - 1);
      } else {
        ShortenedLine(ms, id, next, n - 1);
      }
    }
  }

  lemma DeleteKeepsInv(ms: Members, id: Id)
    requires Inv(ms) && id in ms
    ensures Inv(Deleted(ms, id))
  {
    var after := Deleted(ms, id);
    forall m | m in after
      ensures exists k: nat :: Ends(after, Some(m), k)
    {
      var k: nat :| Ends(ms, Some(m), k);
      ShortenedLine(ms, id, Some(m), k);
    }
    forall m | m in after && after[m].manager.Some?
      ensures after[m].manager.value in after
      ensures after[after[m].manager.value].organization == after[m].organization
    {
      if ms[m].manager == Some(id) && ms[id].manager == Some(id) {
        assert IsPath(ms, [id, id]);
        NobodyReportsToThemselves(ms, [id, id]);
      }
    }
  }

  function MembersOf(ms: Members, organization: nat): set<Id> {
    set m | m in ms && ms[m].organization == organization
  }

  lemma LastMember(ms: Members, id: Id)
    requires id in ms
    ensures |MembersOf(ms, ms[id].organization)| > 1
       <==> exists m :: m in ms && m != id && ms[m].organization == ms[id].organization
  {
    var all := MembersOf(ms, ms[id].organization);
    var others := all - {id};
    assert all == others + {id} && |all| == |others| + 1;
    if m :| m in ms && m != id && ms[m].organization == ms[id].organization {
      assert m in others;
    }
    if |others| > 0 {
      var m :| m in others;
      assert m in ms && m != id && ms[m].organization == ms[id].organization;
    }
  }

  // ---------------------------------------------------------------- every sequence of operations

  datatype Operation =
    | Create(id: Id, organization: nat, manager: Option<Id>)
    | Update(id: Id, manager: Option<Id>)
    | Delete(id: Id)

  /** New members get ids that nobody has and nobody asked for. */
  predicate IsPossible(ms: Members, op: Operation) {
    match op
    case Create(id, _, manager) => id !in ms && manager != Some(id)
    case Update(id, _) => id in ms
    case Delete(id) => id in ms
  }

  /** What an operation makes of the members; a rejected one changes nothing. */
  function Apply(ms: Members, op: Operation): Members
    requires IsPossible(ms, op)
  {
    match op
    case Create(id, organization, manager) =>
      if Validate(ms, organization, manager, None).Accept? then ms[id := Member(organization, manager)] else ms
    case Update(id, manager) =>
      if Validate(ms, ms[id].organization, manager, Some(id)).Accept? then WithManager(ms, id, manager) else ms
    case Delete(id) =>
      if |MembersOf(ms, ms[id].organization)| <= 1 then ms else Deleted(ms, id)
  }

  predicate Leads(ms: Members, ops: seq<Operation>, after: Members)
    decreases |ops|
  {
    if ops == [] then ms == after
    else IsPossible(ms, ops[0]) && Leads(Apply(ms, ops[0]), ops[1..], after)
  }

  lemma OperationKeepsInv(ms: Members, op: Operation)
    requires Inv(ms) && IsPossible(ms, op)
    ensures Inv(Apply(ms, op))
  {
    match op
    case Create(id, organization, manager) => CreateIsAcceptedIffItFits(ms, id, organization, manager);
    case Update(id, manager) => UpdateIsAcceptedIffItFits(ms, id, manager);
    case Delete(id) => DeleteKeepsInv(ms, id);
  }

  /** Whatever is created, updated and deleted, managers stay inside the organization and lines end. */
  lemma {:induction false} OperationsKeepInv(ms: Members, ops: seq<Operation>, after: Members)
    requires Inv(ms) && Leads(ms, ops, after)
    ensures Inv(after)
    decreases |ops|
  {
    if ops != [] {
      OperationKeepsInv(ms, ops[0]);
      OperationsKeepInv(Apply(ms, ops[0]), ops[1..], after);
    }
  }

  /** The stored memberships. */
  class MembershipStore {
    var members: Members

    constructor ()
      ensures members == map[] && Inv(members)
    {
      members := map[];
    }

    method ValidateManager(organization: nat, manager: Option<Id>, member: Option<Id>) returns (verdict: Verdict)
      ensures verdict == Validate(members, organization, manager, member)
    {
      if manager.None? {
        return Accept;
      }
      if member == manager {
        return NotToThemselves;
      }
      if manager.value !in members || members[manager.value].organization != organization {
        return NotInOrganization;
      }
      if member.None? {
        return Accept;
      }
      var visited := {manager.value};
      var current := members[manager.value].manager;
      while current.Some?
        invariant WalkAccepts(members, organization, member.value, current, visited)
               == WalkAccepts(members, organization, member.value, members[manager.value].manager, {manager.value})
        decreases current.Some?, |members.Keys - visited|
      {
        if current.value == member.value || current.value in visited {
          return WouldCycle;
        }
        visited := visited + {current.value};
        if current.value !in members || members[current.value].organization != organization {
          break;
        }
        Fewer(members.Keys - visited, members.Keys - (visited - {current.value}));
        current := members[current.value].manager;
      }
      return Accept;
    }

    method CreateMembership(id: Id, organization: nat, manager: Option<Id>) returns (verdict: Verdict)
      requires Inv(members) && IsPossible(members, Create(id, organization, manager))
      modifies this
      ensures Inv(members) && members == Apply(old(members), Create(id, organization, manager))
      ensures verdict.Accept? <==> Inv(old(members)[id := Member(organization, manager)])
      ensures members == if verdict.Accept? then old(members)[id := Member(organization, manager)] else old(members)
    {
      OperationKeepsInv(members, Create(id, organization, manager));
      CreateIsAcceptedIffItFits(members, id, organization, manager);
      verdict := ValidateManager(organization, manager, None);
      if verdict.Accept? {
        members := members[id := Member(organization, manager)];
      }
    }

    method UpdateMembership(id: Id, manager: Option<Id>) returns (verdict: Verdict)
      requires Inv(members) && id in members
      modifies this
      ensures Inv(members) && members == Apply(old(members), Update(id, manager))
      ensures verdict.Accept? <==> Inv(old(members)[id := old(members)[id].(manager := manager)])
      ensures members == if verdict.Accept? then old(members)[id := old(members)[id].(manager := manager)]
                         else old(members)
      ensures verdict.NotToThemselves? <==> manager == Some(id)
      ensures verdict.NotInOrganization? <==>
              && manager.Some? && manager != Some(id)
              && (manager.value !in old(members)
                  || old(members)[manager.value].organization != old(members)[id].organization)
    {
      OperationKeepsInv(members, Update(id, manager));
      UpdateIsAcceptedIffItFits(members, id, manager);
      assert WithManager(members, id, manager) == members[id := members[id].(manager := manager)];
      verdict := ValidateManager(members[id].organization, manager, Some(id));
      if verdict.Accept? {
        members := members[id := Member(members[id].organization, manager)];
      }
    }

    method ReassignManagedMemberships(id: Id)
      requires id in members
      modifies this
      ensures members == Reassigned(old(members), id)
    {
      var organization, manager := members[id].organization, members[id].manager;
      members := map m | m in members ::
        if members[m].manager == Some(id) && members[m].organization == organization
        then Member(organization, manager)
        else members[m];
    }

    method DeleteMembership(id: Id) returns (deleted: bool)
      requires Inv(members) && id in members
      modifies this
      ensures Inv(members) && members == Apply(old(members), Delete(id))
      ensures deleted <==> exists m :: m in old(members) && m != id
                                       && old(members)[m].organization == old(members)[id].organization
      ensures !deleted ==> members == old(members)
      ensures deleted ==> members.Keys == old(members).Keys - {id}
      ensures deleted ==> forall m :: m in members ==>
                            && members[m].organization == old(members)[m].organization
                            && members[m].manager == if old(members)[m].manager == Some(id)
                                                     then old(members)[id].manager
                                                     else old(members)[m].manager
    {
      LastMember(members, id);
      OperationKeepsInv(members, Delete(id));
      if |MembersOf(members, members[id].organization)| <= 1 {
        return false;
      }
      ReassignManagedMemberships(id);
      members := members - {id};
      return true;
    }
  }
}
