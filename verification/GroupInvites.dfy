/** Spot groups, their members and invites (vivacapi/crud/spot_group.py,
    vivacapi/crud/invite.py), one operation at a time. */
module GroupInvites {
  import opened Wrappers

  datatype Visibility = PRIVATE | INVITE_ONLY | PUBLIC

  datatype Role = VIEWER | CONTRIBUTOR | EDITOR | OWNER

  datatype InviteStatus = PENDING | ACCEPTED | REVOKED

  /** A group to join and the role to join it with. */
  datatype Target = Target(group: string, role: Role)

  /** Without a target it is a referral link. Times are in microseconds. */
  datatype Invite = Invite(
    inviter: string, target: Option<Target>, status: InviteStatus, acceptedBy: Option<string>, createdAt: Option<int>)

  datatype Membership = Membership(group: string, user: string)

  /** `members` is keyed by the table's primary key. `issued` is a history variable: the uids
      ever given to an invite; they are never given again. */
  datatype Db = Db(
    groups: map<string, Visibility>,
    members: map<Membership, Role>,
    invites: map<string, Invite>,
    referredBy: map<string, string>,
    issued: set<string>
  )

  datatype Error = SPOT_GROUP_MEMBER_ALREADY_EXISTS | SPOT_GROUP_LAST_OWNER_REQUIRED | INVITE_NOT_ACCEPTABLE

  /** An operation that fails commits nothing. */
  datatype Outcome = Outcome(db: Db, error: Option<Error>)

  const GROUP_INVITE_TTL: int := 14 * 24 * 60 * 60 * 1_000_000

  // ---------------------------------------------------------------- what operations do

  predicate IsOwner(db: Db, g: string, u: string) {
    Membership(g, u) in db.members && db.members[Membership(g, u)] == OWNER
  }

  function Owners(members: map<Membership, Role>, g: string): set<Membership> {
    set m | m in members && m.group == g && members[m] == OWNER
  }

  function WithMember(db: Db, g: string, u: string, role: Role): Db {
    db.(members := db.members[Membership(g, u) := role])
  }

  function WithoutGroup(db: Db, g: string): Db {
    db.(
    groups := db.groups - {g},
    members := map m | m in db.members && m.group != g :: db.members[m],
    invites := map i | i in db.invites && !InvitesTo(db.invites[i], g) :: db.invites[i])
  }

  predicate InvitesTo(invite: Invite, g: string) {
    invite.target.Some? && invite.target.value.group == g
  }

  /** What an invite to a group must satisfy at the moment it is accepted. */
  predicate StillValid(db: Db, invite: Invite, now: int)
    requires invite.target.Some?
  {
    var g := invite.target.value.group;
    && (invite.createdAt.Some? ==> now - invite.createdAt.value <= GROUP_INVITE_TTL)
    && g in db.groups && db.groups[g] != PRIVATE
    && IsOwner(db, g, invite.inviter)
  }

  // ---------------------------------------------------------------- the code

  class Database {
    var groups: map<string, Visibility>
    var members: map<Membership, Role>
    var invites: map<string, Invite>
    var referredBy: map<string, string>
    ghost var issued: set<string>

    constructor ()
      ensures Snapshot() == EMPTY && Inv(Snapshot())
    {
      groups, members, invites, referredBy, issued := map[], map[], map[], map[], {};
    }

    ghost function Snapshot(): Db
      reads this
    {
      Db(groups, members, invites, referredBy, issued)
    }

    method CreateGroup(g: string, owner: string, visibility: Visibility)
      requires Inv(Snapshot()) && g !in groups
      modifies this
      ensures Snapshot() == Perform(old(Snapshot()), Op.CreateGroup(g, owner, visibility)).db
      ensures Inv(Snapshot())
      ensures groups == old(groups)[g := visibility] && invites == old(invites)
      ensures Owners(members, g) == {Membership(g, owner)} == set m | m in members && m.group == g
      ensures members[Membership(g, owner)] == OWNER
      ensures forall m: Membership :: m.group != g ==>
        (m in members <==> m in old(members)) && (m in members ==> members[m] == old(members)[m])
    {
      StepKeepsInv(Snapshot(), Op.CreateGroup(g, owner, visibility));
      groups := groups[g := visibility];
      members := members[Membership(g, owner) := OWNER];
    }

    method UpdateGroup(g: string, visibility: Visibility)
      requires g in groups
      modifies this
      ensures Snapshot() == Perform(old(Snapshot()), Op.UpdateGroup(g, visibility)).db
      ensures g in groups && groups[g] == visibility
      ensures forall h :: h != g ==>
        (h in groups <==> h in old(groups)) && (h in groups ==> groups[h] == old(groups)[h])
      ensures members == old(members) && invites == old(invites) && referredBy == old(referredBy)
    {
      groups := groups[g := visibility];
    }

    method CreateInvite(i: string, inviter: string, target: Option<Target>, createdAt: Option<int>)
      requires i !in issued && (target.Some? ==> target.value.group in groups)
      modifies this
      ensures Snapshot() == Perform(old(Snapshot()), Op.CreateInvite(i, inviter, target, createdAt)).db
      ensures i in invites && invites[i] == Invite(inviter, target, PENDING, None, createdAt)
      ensures forall j :: j != i ==>
        (j in invites <==> j in old(invites)) && (j in invites ==> invites[j] == old(invites)[j])
      ensures groups == old(groups) && members == old(members) && referredBy == old(referredBy)
    {
      invites := invites[i := Invite(inviter, target, PENDING, None, createdAt)];
      issued := issued + {i};
    }

    method DeleteGroup(g: string)
      requires Inv(Snapshot()) && g in groups
      modifies this
      ensures Snapshot() == Perform(old(Snapshot()), Op.DeleteGroup(g)).db
      ensures Inv(Snapshot())
      ensures g !in groups && (forall m :: m in members ==> m.group != g)
      ensures (forall i :: i in invites ==> !InvitesTo(invites[i], g))
      ensures forall h :: h != g ==> Owners(members, h) == Owners(old(members), h)
      ensures forall i :: i in old(invites) && i !in invites ==> InvitesTo(old(invites)[i], g)
      ensures groups == old(groups) - {g} && referredBy == old(referredBy)
      ensures forall m :: m in old(members) && m.group != g ==> m in members && members[m] == old(members)[m]
      ensures forall i :: i in invites ==> i in old(invites) && invites[i] == old(invites)[i]
    {
      StepKeepsInv(Snapshot(), Op.DeleteGroup(g));
      GroupGone(Snapshot(), g);
      groups := groups - {g};
      members := map m | m in members && m.group != g :: members[m];
      invites := map i | i in invites && !InvitesTo(invites[i], g) :: invites[i];
    }

    method CountOwners(g: string) returns (n: nat)
      ensures n == |Owners(members, g)|
    {
      n := |set m | m in members && m.group == g && members[m] == OWNER|;
    }

    method AddMember(g: string, u: string, role: Role) returns (error: Option<Error>)
      requires g in groups
      modifies this
      ensures Outcome(Snapshot(), error) == Perform(old(Snapshot()), Op.AddMember(g, u, role))
      ensures error.None? <==> Membership(g, u) !in old(members)
      ensures |members| == |old(members)| + if error.None? then 1 else 0
      ensures Membership(g, u) in members && (error.None? ==> members[Membership(g, u)] == role)
      ensures forall m :: m in old(members) ==> m in members && members[m] == old(members)[m]
      ensures groups == old(groups) && invites == old(invites) && referredBy == old(referredBy)
    {
      if Membership(g, u) in members {
        return Some(SPOT_GROUP_MEMBER_ALREADY_EXISTS);
      }
      members := members[Membership(g, u) := role];
      error := None;
    }

    method UpdateMemberRole(m: Membership, role: Role) returns (error: Option<Error>)
      requires m in members
      modifies this
      ensures Outcome(Snapshot(), error) == Perform(old(Snapshot()), Op.UpdateMemberRole(m, role))
      ensures error.Some? <==> role != OWNER && forall w: Membership ::
        w.group == m.group ==> (w == m <==> w in old(members) && old(members)[w] == OWNER)
      ensures members == if error.None? then old(members)[m := role] else old(members)
      ensures groups == old(groups) && invites == old(invites) && referredBy == old(referredBy)
    {
      OnlyOwnerMeans(Snapshot(), m);
      if members[m] == OWNER && role != OWNER {
        var owners := CountOwners(m.group);
        LastOwner(members, m);
        if owners <= 1 {
          return Some(SPOT_GROUP_LAST_OWNER_REQUIRED);
        }
      }
      members := members[m := role];
      error := None;
    }

    method RemoveMember(m: Membership) returns (error: Option<Error>)
      requires m in members
      modifies this
      ensures Outcome(Snapshot(), error) == Perform(old(Snapshot()), Op.RemoveMember(m))
      ensures error.Some? <==> forall w: Membership ::
        w.group == m.group ==> (w == m <==> w in old(members) && old(members)[w] == OWNER)
      ensures members == if error.None? then old(members) - {m} else old(members)
      ensures groups == old(groups) && invites == old(invites) && referredBy == old(referredBy)
    {
      OnlyOwnerMeans(Snapshot(), m);
      if members[m] == OWNER {
        var owners := CountOwners(m.group);
        LastOwner(members, m);
        if owners <= 1 {
          return Some(SPOT_GROUP_LAST_OWNER_REQUIRED);
        }
      }
      members := members - {m};
      error := None;
    }

    method IsGroupInviteStillValid(invite: Invite, now: int) returns (valid: bool)
      requires invite.target.Some?
      ensures valid == StillValid(Snapshot(), invite, now)
      ensures valid <==>
        var g := invite.target.value.group;
        && (invite.createdAt.Some? ==> now <= invite.createdAt.value + 14 * 24 * 60 * 60 * 1_000_000)
        && g in groups && groups[g] in {INVITE_ONLY, PUBLIC}
        && Membership(g, invite.inviter) in members && members[Membership(g, invite.inviter)] == OWNER
    {
      if invite.createdAt.Some? && now - invite.createdAt.value > GROUP_INVITE_TTL {
        return false;
      }
      var g := invite.target.value.group;
      if g !in groups || groups[g] == PRIVATE {
        return false;
      }
      var inviter := Membership(g, invite.inviter);
      valid := inviter in members && members[inviter] == OWNER;
    }

    method AcceptInvite(i: string, u: string, now: int) returns (error: Option<Error>)
      requires i in invites
      modifies this
      ensures Outcome(Snapshot(), error) == Perform(old(Snapshot()), Op.AcceptInvite(i, u, now))
      ensures error.None? <==> Acceptable(old(Snapshot()), i, u, now)
      ensures error.Some? ==> Snapshot() == old(Snapshot())
      ensures error.None? ==> LetIn(old(Snapshot()), Snapshot(), i, u)
      ensures referredBy == old(referredBy)
      ensures old(Inv(Snapshot())) ==> Inv(Snapshot())
    {
      ghost var before, op := Snapshot(), Op.AcceptInvite(i, u, now);
      AdmissionIsExact(before, op, i);
      KeepsInvIf(before, op);
      var invite := invites[i];
      if invite.status != PENDING || invite.target.None? {
        return Some(INVITE_NOT_ACCEPTABLE);
      }
      var valid := IsGroupInviteStillValid(invite, now);
      if !valid {
        return Some(INVITE_NOT_ACCEPTABLE);
      }
      error := AddMember(invite.target.value.group, u, invite.target.value.role);
      if error.None? {
        invites := invites[i := invite.(status := ACCEPTED, acceptedBy := Some(u))];
      }
    }

    method ConsumeInviteForSignup(i: string, u: string, now: int) returns (error: Option<Error>)
      modifies this
      ensures Outcome(Snapshot(), error) == Perform(old(Snapshot()), Op.ConsumeInvite(i, u, now))
      ensures members != old(members) <==> i in old(invites) && Acceptable(old(Snapshot()), i, u, now)
      ensures members != old(members) ==> error.None? && LetIn(old(Snapshot()), Snapshot(), i, u)
      ensures members == old(members) ==> invites == old(invites)
      ensures error.None? && i in old(invites) && old(invites)[i].status == PENDING ==>
        referredBy == old(referredBy)[u := old(invites)[i].inviter]
      ensures i !in old(invites) || old(invites)[i].status != PENDING ==> Snapshot() == old(Snapshot())
      ensures error.Some? ==> Snapshot() == old(Snapshot())
      ensures old(Inv(Snapshot())) ==> Inv(Snapshot())
    {
      ghost var before, op := Snapshot(), Op.ConsumeInvite(i, u, now);
      AdmissionIsExact(before, op, i);
      KeepsInvIf(before, op);
      if i !in invites || invites[i].status != PENDING {
        return None;
      }
      var invite := invites[i];
      var valid := false;
      if invite.target.Some? {
        valid := IsGroupInviteStillValid(invite, now);
      }
      assert valid <==> invite.target.Some? && StillValid(before, invite, now);
      if valid {
        error := AddMember(invite.target.value.group, u, invite.target.value.role);
        if error.Some? {
          return;
        }
        invites := invites[i := invite.(status := ACCEPTED, acceptedBy := Some(u))];
      }
      referredBy := referredBy[u := invite.inviter];
      error := None;
    }
  }

  lemma OnlyOwnerMeans(db: Db, m: Membership)
    ensures OnlyOwner(db, m) <==> forall w: Membership ::
      w.group == m.group ==> (w == m <==> w in db.members && db.members[w] == OWNER)
  {
    if forall w: Membership :: w.group == m.group ==> (w == m <==> w in db.members && db.members[w] == OWNER) {
      assert Owners(db.members, m.group) == {m};
    }
    if OnlyOwner(db, m) {
      forall w: Membership | w.group == m.group ensures w == m <==> w in db.members && db.members[w] == OWNER {
        assert w in Owners(db.members, m.group) <==> w in db.members && db.members[w] == OWNER;
      }
    }
  }

  /** Through invite `i` user `u` has become a member with the invite's role, and the only one to
      do so; the invite is used up by `u`, and no other invite and no group has changed. */
  ghost predicate LetIn(before: Db, after: Db, i: string, u: string) {
    && i in before.invites && before.invites[i].target.Some?
    && var target := before.invites[i].target.value;
       && Membership(target.group, u) !in before.members
       && after.members == before.members[Membership(target.group, u) := target.role]
       && after.invites == before.invites[i := before.invites[i].(status := ACCEPTED, acceptedBy := Some(u))]
       && after.groups == before.groups
  }

  lemma KeepsInvIf(db: Db, op: Op)
    requires Enabled(db, op)
    ensures Inv(db) ==> Inv(Perform(db, op).db)
  {
    if Inv(db) {
      StepKeepsInv(db, op);
    }
  }

  lemma GroupGone(db: Db, g: string)
    ensures var db' := WithoutGroup(db, g);
            && (forall m :: m in db'.members ==> m.group != g)
            && (forall i :: i in db'.invites ==> !InvitesTo(db'.invites[i], g))
            && (forall i :: i in db.invites && i !in db'.invites ==> InvitesTo(db.invites[i], g))
            && (forall h :: h != g ==> Owners(db'.members, h) == Owners(db.members, h))
  {
  }

  // ---------------------------------------------------------------- operations as a system

  datatype Op =
    | CreateGroup(g: string, owner: string, visibility: Visibility)
    | UpdateGroup(g: string, visibility: Visibility)
    | DeleteGroup(g: string)
    | AddMember(g: string, u: string, role: Role)
    | UpdateMemberRole(m: Membership, role: Role)
    | RemoveMember(m: Membership)
    | CreateInvite(i: string, inviter: string, target: Option<Target>, createdAt: Option<int>)
    | AcceptInvite(i: string, u: string, now: int)
    | ConsumeInvite(i: string, u: string, now: int)
    // the process dies between the two commits of an acceptance, or of a signup
    | DieWhileAccepting(i: string, u: string, now: int)
    | DieWhileSigningUp(i: string, u: string, now: int)

  predicate CutShort(op: Op) {
    op.DieWhileAccepting? || op.DieWhileSigningUp?
  }

  /** What callers have looked up before, and foreign keys. */
  predicate Enabled(db: Db, op: Op) {
    match op
    case CreateGroup(g, _, _) => g !in db.groups
    case UpdateGroup(g, _) => g in db.groups
    case DeleteGroup(g) => g in db.groups
    case AddMember(g, _, _) => g in db.groups
    case UpdateMemberRole(m, _) => m in db.members
    case RemoveMember(m) => m in db.members
    case CreateInvite(i, _, target, _) => i !in db.issued && (target.Some? ==> target.value.group in db.groups)
    case AcceptInvite(i, _, _) => i in db.invites
    case ConsumeInvite(_, _, _) => true
    case DieWhileAccepting(i, u, now) => i in db.invites && Acceptable(db, i, u, now)
    case DieWhileSigningUp(i, u, now) => i in db.invites && Acceptable(db, i, u, now)
  }

  /** An invite that lets user `u` in at time `now`. */
  predicate Acceptable(db: Db, i: string, u: string, now: int)
    requires i in db.invites
  {
    var invite := db.invites[i];
    && invite.status == PENDING && invite.target.Some? && StillValid(db, invite, now)
    && Membership(invite.target.value.group, u) !in db.members
  }

  predicate OnlyOwner(db: Db, m: Membership) {
    Owners(db.members, m.group) == {m}
  }

  function Done(db: Db): Outcome {
    Outcome(db, None)
  }

  function Refused(db: Db, error: Error): Outcome {
    Outcome(db, Some(error))
  }

  /** `add_member`, which commits. */
  function Added(db: Db, g: string, u: string, role: Role): Outcome {
    if Membership(g, u) in db.members then Refused(db, SPOT_GROUP_MEMBER_ALREADY_EXISTS)
    else Done(WithMember(db, g, u, role))
  }

  /** `add_member` for the target of an invite, and then the invite marked as used. */
  function JoinedBy(db: Db, i: string, u: string): Outcome
    requires i in db.invites && db.invites[i].target.Some?
  {
    var target := db.invites[i].target.value;
    var added := Added(db, target.group, u, target.role);
    if added.error.Some? then Refused(db, added.error.value) else Done(Used(added.db, i, u))
  }

  function Used(db: Db, i: string, u: string): Db
    requires i in db.invites
  {
    db.(invites := db.invites[i := db.invites[i].(status := ACCEPTED, acceptedBy := Some(u))])
  }

  function Referred(db: Db, i: string, u: string): Db
    requires i in db.invites
  {
    db.(referredBy := db.referredBy[u := db.invites[i].inviter])
  }

  function Perform(db: Db, op: Op): Outcome
    requires Enabled(db, op)
  {
    match op
    case CreateGroup(g, owner, visibility) =>
      Done(WithMember(db, g, owner, OWNER).(groups := db.groups[g := visibility]))
    case UpdateGroup(g, visibility) => Done(db.(groups := db.groups[g := visibility]))
    case DeleteGroup(g) => Done(WithoutGroup(db, g))
    case AddMember(g, u, role) => Added(db, g, u, role)
    case UpdateMemberRole(m, role) =>
      if OnlyOwner(db, m) && role != OWNER then Refused(db, SPOT_GROUP_LAST_OWNER_REQUIRED)
      else Done(WithMember(db, m.group, m.user, role))
    case RemoveMember(m) =>
      if OnlyOwner(db, m) then Refused(db, SPOT_GROUP_LAST_OWNER_REQUIRED)
      else Done(db.(members := db.members - {m}))
    case CreateInvite(i, inviter, target, createdAt) =>
      var invite := Invite(inviter, target, PENDING, None, createdAt);
      Done(db.(invites := db.invites[i := invite], issued := db.issued + {i}))
    case AcceptInvite(i, u, now) =>
      var invite := db.invites[i];
      if invite.status != PENDING || invite.target.None? || !StillValid(db, invite, now) then
        Refused(db, INVITE_NOT_ACCEPTABLE)
      else JoinedBy(db, i, u)
    case ConsumeInvite(i, u, now) =>
      if i !in db.invites || db.invites[i].status != PENDING then Done(db)
      else if db.invites[i].target.None? || !StillValid(db, db.invites[i], now) then Done(Referred(db, i, u))
      else
        var joined := JoinedBy(Referred(db, i, u), i, u);
        if joined.error.Some? then Refused(db, joined.error.value) else joined
    case DieWhileAccepting(i, u, now) =>
      var target := db.invites[i].target.value;
      Done(WithMember(db, target.group, u, target.role))
    case DieWhileSigningUp(i, u, now) =>
      var target := db.invites[i].target.value;
      Done(WithMember(Referred(db, i, u), target.group, u, target.role))
  }

  /** The owner count tells whether an owner is the only one. */
  lemma LastOwner(members: map<Membership, Role>, m: Membership)
    requires m in members && members[m] == OWNER
    ensures |Owners(members, m.group)| <= 1 <==> Owners(members, m.group) == {m}
  {
    var owners := Owners(members, m.group);
    assert m in owners && |owners - {m}| == |owners| - 1;
    assert owners == {m} + (owners - {m});
  }

  ghost predicate Path(dbs: seq<Db>, ops: seq<Op>) {
    && |dbs| == |ops| + 1
    && forall i :: 0 <= i < |ops| ==> Enabled(dbs[i], ops[i]) && dbs[i + 1] == Perform(dbs[i], ops[i]).db
  }

  const EMPTY := Db(map[], map[], map[], map[], {})

  ghost predicate Run(dbs: seq<Db>, ops: seq<Op>) {
    Path(dbs, ops) && dbs[0] == EMPTY
  }

  // ---------------------------------------------------------------- groups keep an owner

  /** Every group has an owner, and every member's group exists. */
  ghost predicate Inv(db: Db) {
    && (forall g :: g in db.groups ==> Owners(db.members, g) != {})
    && (forall m :: m in db.members ==> m.group in db.groups)
    && (forall i :: i in db.invites ==> i in db.issued && InviteOk(db.invites[i]))
  }

  /** Referral links stay pending. */
  predicate InviteOk(invite: Invite) {
    && (invite.target.None? ==> invite.status == PENDING)
    && (invite.status == ACCEPTED <==> invite.acceptedBy.Some?)
  }

  predicate Demotes(op: Op, m: Membership) {
    (op.RemoveMember? && op.m == m) || (op.UpdateMemberRole? && op.m == m && op.role != OWNER)
  }

  lemma OwnerStays(db: Db, op: Op, owner: Membership)
    requires Enabled(db, op) && owner in db.members && db.members[owner] == OWNER
    requires owner.group in Perform(db, op).db.groups
    requires Perform(db, op).error.Some? || !Demotes(op, owner)
    requires op.CreateGroup? ==> op.g != owner.group
    ensures owner in Owners(Perform(db, op).db.members, owner.group)
  {
  }

  /** Whoever is demoted or removed leaves another owner behind. */
  lemma SomeoneElse(db: Db, op: Op, m: Membership) returns (other: Membership)
    requires Enabled(db, op) && Perform(db, op).error.None? && Demotes(op, m)
    requires m in Owners(db.members, m.group)
    ensures other in Owners(db.members, m.group) && other != m
  {
    var owners := Owners(db.members, m.group);
    assert owners != {m};
    assert exists other :: other in owners && other != m;
    other :| other in owners && other != m;
  }

  /** Which member an operation may lose an owner by, and which groups it may start. */
  lemma ChangesOfGroups(db: Db, op: Op, g: string)
    requires Enabled(db, op) && g in Perform(db, op).db.groups
    ensures g in db.groups || (op.CreateGroup? && op.g == g)
  {
  }

  lemma OwnersSurvive(db: Db, op: Op, g: string)
    requires Inv(db) && Enabled(db, op) && g in Perform(db, op).db.groups
    ensures Owners(Perform(db, op).db.members, g) != {}
  {
    ChangesOfGroups(db, op, g);
    if op.CreateGroup? && g == op.g {
      assert Membership(g, op.owner) in Owners(Perform(db, op).db.members, g);
    } else {
      var owner :| owner in Owners(db.members, g);
      if Perform(db, op).error.None? && Demotes(op, owner) {
        owner := SomeoneElse(db, op, owner);
      }
      OwnerStays(db, op, owner);
    }
  }

  lemma MembersHaveGroups(db: Db, op: Op, m: Membership)
    requires Inv(db) && Enabled(db, op) && m in Perform(db, op).db.members
    ensures m.group in Perform(db, op).db.groups
  {
  }

  lemma InvitesStayOk(db: Db, op: Op, i: string)
    requires Inv(db) && Enabled(db, op) && i in Perform(db, op).db.invites
    ensures i in Perform(db, op).db.issued && InviteOk(Perform(db, op).db.invites[i])
  {
    if op.AcceptInvite? || op.ConsumeInvite? || CutShort(op) {
      InviteUseStaysOk(db, op, i);
    } else {
      InviteIssueStaysOk(db, op, i);
    }
  }

  lemma InviteUseStaysOk(db: Db, op: Op, i: string)
    requires Inv(db) && Enabled(db, op) && i in Perform(db, op).db.invites
    requires op.AcceptInvite? || op.ConsumeInvite? || CutShort(op)
    ensures i in Perform(db, op).db.issued && InviteOk(Perform(db, op).db.invites[i])
  {
    UseChangesOneInvite(db, op);
    assert i in db.invites ==> InviteOk(db.invites[i]);
  }

  lemma UseChangesOneInvite(db: Db, op: Op)
    requires Enabled(db, op) && (op.AcceptInvite? || op.ConsumeInvite? || CutShort(op))
    ensures var db' := Perform(db, op).db;
            && db'.issued == db.issued
            && (db'.invites == db.invites
                || (op.i in db.invites && db.invites[op.i].target.Some? && db'.invites == Used(db, op.i, op.u).invites))
  {
  }

  lemma InviteIssueStaysOk(db: Db, op: Op, i: string)
    requires Inv(db) && Enabled(db, op) && i in Perform(db, op).db.invites
    requires !op.AcceptInvite? && !op.ConsumeInvite? && !CutShort(op)
    ensures i in Perform(db, op).db.issued && InviteOk(Perform(db, op).db.invites[i])
  {
    assert i in db.invites ==> InviteOk(db.invites[i]);
  }

  lemma StepKeepsInv(db: Db, op: Op)
    requires Inv(db) && Enabled(db, op)
    ensures Inv(Perform(db, op).db)
  {
    var db' := Perform(db, op).db;
    forall g | g in db'.groups ensures Owners(db'.members, g) != {} {
      OwnersSurvive(db, op, g);
    }
    forall m | m in db'.members ensures m.group in db'.groups {
      MembersHaveGroups(db, op, m);
    }
    forall i | i in db'.invites ensures i in db'.issued && InviteOk(db'.invites[i]) {
      InvitesStayOk(db, op, i);
    }
  }

  /** In every run, also one that dies in the middle of acceptances, every group keeps an
      owner, nobody is a member of a group that is gone, and referral links stay pending. */
  lemma {:induction false} RunKeepsInv(dbs: seq<Db>, ops: seq<Op>, k: nat)
    requires Run(dbs, ops) && k <= |ops|
    ensures Inv(dbs[k])
  {
    if k > 0 {
      RunKeepsInv(dbs, ops, k - 1);
      StepKeepsInv(dbs[k - 1], ops[k - 1]);
    }
  }

  // ---------------------------------------------------------------- invites admit once

  predicate UsesInvite(op: Op, i: string) {
    (op.AcceptInvite? || op.ConsumeInvite? || CutShort(op)) && op.i == i
  }

  /** The operation adds a member through invite `i`. */
  predicate Admits(db: Db, op: Op, i: string)
    requires Enabled(db, op)
  {
    UsesInvite(op, i) && Perform(db, op).db.members != db.members
  }

  /** An invite admits exactly when it is pending, its group is not private, its inviter owns
      the group, it is within its 14 days, and the user is not a member yet; it then adds that
      one member with the invite's role, and is used up unless it is cut short. Otherwise no
      member and no invite changes. */
  lemma AdmissionIsExact(db: Db, op: Op, i: string)
    requires Enabled(db, op) && UsesInvite(op, i)
    ensures Admits(db, op, i) <==> i in db.invites && Acceptable(db, i, op.u, op.now)
    ensures Admits(db, op, i) ==>
      var invite, db' := db.invites[i], Perform(db, op).db;
      var target := invite.target.value;
      && db'.members == db.members[Membership(target.group, op.u) := target.role]
      && db'.groups == db.groups && db'.issued == db.issued
      && db'.invites == if CutShort(op) then db.invites else Used(db, i, op.u).invites
    ensures !Admits(db, op, i) ==> Perform(db, op).db.members == db.members && Perform(db, op).db.invites == db.invites
  {
    if i in db.invites && Acceptable(db, i, op.u, op.now) {
      assert Membership(db.invites[i].target.value.group, op.u) in Perform(db, op).db.members;
    }
  }

  /** A used-up invite stays so, or disappears with its group, and admits nobody. */
  predicate UsedUp(db: Db, i: string) {
    i in db.issued && (i in db.invites ==> db.invites[i].status == ACCEPTED)
  }

  lemma StepKeepsUsedUp(db: Db, op: Op, i: string)
    requires Enabled(db, op) && UsedUp(db, i)
    ensures UsedUp(Perform(db, op).db, i) && !Admits(db, op, i)
  {
  }

  lemma {:induction false} UsedUpForGood(dbs: seq<Db>, ops: seq<Op>, i: string, n: nat)
    requires Path(dbs, ops) && n <= |ops| && UsedUp(dbs[0], i)
    ensures UsedUp(dbs[n], i)
  {
    if n > 0 {
      UsedUpForGood(dbs, ops, i, n - 1);
      StepKeepsUsedUp(dbs[n - 1], ops[n - 1], i);
    }
  }

  lemma PathTail(dbs: seq<Db>, ops: seq<Op>, k: nat)
    requires Path(dbs, ops) && k <= |ops|
    ensures Path(dbs[k..], ops[k..])
  {
  }

  /** Over any run an admission that is not cut short is the last through its invite, whatever
      other operations are cut short. */
  lemma InvitesAdmitOnce(dbs: seq<Db>, ops: seq<Op>, i: string, k: nat, n: nat)
    requires Run(dbs, ops) && k < n < |ops| && !CutShort(ops[k])
    requires Enabled(dbs[k], ops[k]) && Enabled(dbs[n], ops[n]) && Admits(dbs[k], ops[k], i)
    ensures !Admits(dbs[n], ops[n], i)
  {
    RunKeepsInv(dbs, ops, k);
    AdmissionIsExact(dbs[k], ops[k], i);
    PathTail(dbs, ops, k + 1);
    assert UsedUp(dbs[k + 1], i);
    UsedUpForGood(dbs[k + 1..], ops[k + 1..], i, n - k - 1);
    StepKeepsUsedUp(dbs[n], ops[n], i);
  }

  // ---------------------------------------------------------------- exactly when it is the last

  /** Nothing that follows admits through invite `i`. */
  ghost predicate AdmitsNoMore(db: Db, i: string) {
    forall dbs: seq<Db>, ops: seq<Op>, n: nat :: Path(dbs, ops) && dbs[0] == db && n < |ops| ==>
      NoAdmission(dbs, ops, i, n)
  }

  ghost predicate NoAdmission(dbs: seq<Db>, ops: seq<Op>, i: string, n: nat)
    requires Path(dbs, ops) && n < |ops|
  {
    !Admits(dbs[n], ops[n], i)
  }

  lemma {:induction false} LongerThanAll(texts: set<string>) returns (u: string)
    ensures forall t :: t in texts ==> |t| < |u|
  {
    if texts == {} {
      u := "";
    } else {
      var t :| t in texts;
      var longer := LongerThanAll(texts - {t});
      u := if |t| < |longer| then longer else t + "u";
      assert forall x :: x in texts ==> x == t || x in texts - {t};
    }
  }

  /** There is always someone who is not a member yet. */
  lemma Stranger(db: Db, g: string) returns (u: string)
    ensures Membership(g, u) !in db.members
  {
    var users := set m | m in db.members :: m.user;
    u := LongerThanAll(users);
    assert Membership(g, u) in db.members ==> u in users;
  }

  /** What is kept of an operation that dies between its commits: the membership, after a signup
      the referral, and nothing else; the invite stays as it was. */
  lemma CutShortKeepsMembership(db: Db, op: Op)
    requires Enabled(db, op) && CutShort(op)
    ensures var cut, target := Perform(db, op).db, db.invites[op.i].target.value;
            && cut.members == db.members[Membership(target.group, op.u) := target.role]
            && cut.referredBy == (if op.DieWhileSigningUp? then db.referredBy[op.u := db.invites[op.i].inviter]
                                  else db.referredBy)
            && cut.groups == db.groups && cut.invites == db.invites
  {
  }

  lemma CutShortLeavesItOpen(db: Db, op: Op, i: string, v: string)
    requires Enabled(db, op) && Admits(db, op, i) && CutShort(op)
    requires v != op.u && Membership(db.invites[i].target.value.group, v) !in db.members
    ensures var cut := Perform(db, op).db; i in cut.invites && Acceptable(cut, i, v, op.now)
    ensures var cut := Perform(db, op).db;
            Enabled(cut, Op.AcceptInvite(i, v, op.now)) && Admits(cut, Op.AcceptInvite(i, v, op.now), i)
  {
    AdmissionIsExact(db, op, i);
    AdmissionIsExact(Perform(db, op).db, Op.AcceptInvite(i, v, op.now), i);
  }

  /** Exactly: from any state that keeps the invariant, an admission is the last through its
      invite, in every continuation, if and only if it was not cut short. */
  lemma AdmissionIsLastIffUncut(db: Db, op: Op, i: string)
    requires Inv(db) && Enabled(db, op) && Admits(db, op, i)
    ensures AdmitsNoMore(Perform(db, op).db, i) <==> !CutShort(op)
  {
    var db' := Perform(db, op).db;
    AdmissionIsExact(db, op, i);
    if CutShort(op) {
      var v := Stranger(db', db.invites[i].target.value.group);
      CutShortLeavesItOpen(db, op, i, v);
      var again := Op.AcceptInvite(i, v, op.now);
      var dbs, ops := [db', Perform(db', again).db], [again];
      assert Path(dbs, ops) && !NoAdmission(dbs, ops, i, 0);
    } else {
      assert UsedUp(db', i);
      forall dbs: seq<Db>, ops: seq<Op>, n: nat | Path(dbs, ops) && dbs[0] == db' && n < |ops|
        ensures NoAdmission(dbs, ops, i, n)
      {
        UsedUpForGood(dbs, ops, i, n);
        StepKeepsUsedUp(dbs[n], ops[n], i);
      }
    }
  }

  // ---------------------------------------------------------------- runs that are cut short

  function WithGroup(g: string, owner: string): Db {
    Db(map[g := PUBLIC], map[Membership(g, owner) := OWNER], map[], map[], {})
  }

  function WithInvite(g: string, owner: string, i: string, role: Role, now: int): Db {
    WithGroup(g, owner).(
    invites := map[i := Invite(owner, Some(Target(g, role)), PENDING, None, Some(now))], issued := {i})
  }

  lemma SetUp(g: string, owner: string, i: string, role: Role, now: int)
    ensures Enabled(EMPTY, Op.CreateGroup(g, owner, PUBLIC))
    ensures Perform(EMPTY, Op.CreateGroup(g, owner, PUBLIC)).db == WithGroup(g, owner)
    ensures var invites := CreateInvite(i, owner, Some(Target(g, role)), Some(now));
            && Enabled(WithGroup(g, owner), invites)
            && Perform(WithGroup(g, owner), invites).db == WithInvite(g, owner, i, role, now)
  {
  }

  /** From the empty database: an owner makes a public group and one invite; an acceptance, or a
      signup, dies between its two commits; the same invite then admits a second user. */
  lemma CutShortAcceptanceAdmitsAgain(
    g: string, owner: string, i: string, role: Role, u: string, v: string, now: int, signup: bool)
    returns (dbs: seq<Db>, ops: seq<Op>)
    requires owner != u && owner != v && u != v
    ensures Run(dbs, ops) && |ops| == 4
    ensures ops[2] == (if signup then DieWhileSigningUp(i, u, now) else DieWhileAccepting(i, u, now))
    ensures Enabled(dbs[2], ops[2]) && Admits(dbs[2], ops[2], i) && Enabled(dbs[3], ops[3]) && Admits(dbs[3], ops[3], i)
    ensures dbs[4].members == map[Membership(g, owner) := OWNER, Membership(g, u) := role, Membership(g, v) := role]
  {
    var db := WithInvite(g, owner, i, role, now);
    var first := if signup then DieWhileSigningUp(i, u, now) else DieWhileAccepting(i, u, now);
    var second := Op.AcceptInvite(i, v, now);
    SetUp(g, owner, i, role, now);
    assert IsOwner(db, g, owner) && Acceptable(db, i, u, now);
    AdmissionIsExact(db, first, i);
    CutShortLeavesItOpen(db, first, i, v);
    var cut := Perform(db, first).db;
    AdmissionIsExact(cut, second, i);
    dbs := [EMPTY, WithGroup(g, owner), db, cut, Perform(cut, second).db];
    ops := [Op.CreateGroup(g, owner, PUBLIC), CreateInvite(i, owner, Some(Target(g, role)), Some(now)), first, second];
  }
}
