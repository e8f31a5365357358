/** internal/auth/user_team_sync.go over the store of internal/auth/memory.go: bringing a user's team and organization
    memberships in line with what a token lists. */
module TeamSync {
  import opened Options

  datatype User = User(id: string, email: Option<string>, role: string, organizationID: Option<string>, active: bool)

  datatype Team = Team(id: string, active: bool)

  datatype Membership = Membership(userID: string, teamID: string, role: string, spend: real, joinedAt: int)

  datatype OrgMembership =
    OrgMembership(userID: string, organizationID: string, role: string, spend: real, joinedAt: int)

  /** The key of a row, in either table. */
  function MembershipKey(userID: string, id: string): string {
    userID + ":" + id
  }

  type Rows = map<string, Membership>

  type OrgRows = map<string, OrgMembership>

  /** Every row is stored under the key its own IDs make. */
  ghost predicate Keyed(rows: Rows) {
    forall k <- rows :: k == MembershipKey(rows[k].userID, rows[k].teamID)
  }

  function TeamsOf(rows: Rows, userID: string): set<string> {
    set k | k in rows && rows[k].userID == userID :: rows[k].teamID
  }

  lemma SameTeam(userID: string, a: string, b: string)
    requires MembershipKey(userID, a) == MembershipKey(userID, b)
    ensures a == b
  {
    var n := |userID| + 1;
    assert MembershipKey(userID, a)[n..] == a && MembershipKey(userID, b)[n..] == b;
  }

  /** A user is in a team exactly when a row of theirs stands under the key of the two. */
  lemma InTeam(rows: Rows, userID: string, teamID: string)
    requires Keyed(rows)
    ensures teamID in TeamsOf(rows, userID) <==>
      MembershipKey(userID, teamID) in rows && rows[MembershipKey(userID, teamID)].userID == userID
  {
    var key := MembershipKey(userID, teamID);
    if key in rows && rows[key].userID == userID {
      SameTeam(userID, rows[key].teamID, teamID);
    }
  }

  ghost predicate OrgKeyed(rows: OrgRows) {
    forall k <- rows :: k == MembershipKey(rows[k].userID, rows[k].organizationID)
  }

  function OrganizationsOf(rows: OrgRows, userID: string): set<string> {
    set k | k in rows && rows[k].userID == userID :: rows[k].organizationID
  }

  lemma InOrganization(rows: OrgRows, userID: string, orgID: string)
    requires OrgKeyed(rows)
    ensures orgID in OrganizationsOf(rows, userID) <==>
      MembershipKey(userID, orgID) in rows && rows[MembershipKey(userID, orgID)].userID == userID
  {
    var key := MembershipKey(userID, orgID);
    if key in rows && rows[key].userID == userID {
      SameTeam(userID, rows[key].organizationID, orgID);
    }
  }

  class MemoryStore {
    var users: map<string, User>
    var teams: map<string, Team>
    var teamMemberships: Rows
    var orgMemberships: OrgRows

    constructor ()
      ensures users == map[] && teams == map[] && teamMemberships == map[] && orgMemberships == map[]
    {
      users, teams, teamMemberships, orgMemberships := map[], map[], map[], map[];
    }

    method GetOrganizationMembership(userID: string, orgID: string) returns (m: Option<OrgMembership>)
      ensures m.Some? <==> MembershipKey(userID, orgID) in orgMemberships
      ensures m.Some? ==> m.value == orgMemberships[MembershipKey(userID, orgID)]
    {
      var key := MembershipKey(userID, orgID);
      return if key in orgMemberships then Some(orgMemberships[key]) else None;
    }

    method CreateOrganizationMembership(membership: OrgMembership)
      modifies this`orgMemberships
      ensures orgMemberships ==
        old(orgMemberships)[MembershipKey(membership.userID, membership.organizationID) := membership]
      ensures old(OrgKeyed(orgMemberships)) ==> OrgKeyed(orgMemberships)
    {
      orgMemberships := orgMemberships[MembershipKey(membership.userID, membership.organizationID) := membership];
    }

    method CreateTeamMembership(membership: Membership)
      modifies this`teamMemberships
      ensures teamMemberships ==
        old(teamMemberships)[MembershipKey(membership.userID, membership.teamID) := membership]
      ensures old(Keyed(teamMemberships)) ==> Keyed(teamMemberships)
    {
      teamMemberships := teamMemberships[MembershipKey(membership.userID, membership.teamID) := membership];
    }

    method DeleteTeamMembership(userID: string, teamID: string)
      modifies this`teamMemberships
      ensures teamMemberships == old(teamMemberships) - {MembershipKey(userID, teamID)}
      ensures old(Keyed(teamMemberships)) ==> Keyed(teamMemberships)
    {
      teamMemberships := teamMemberships - {MembershipKey(userID, teamID)};
    }

    method ListUserTeamMemberships(userID: string) returns (r: seq<Membership>)
      ensures forall t :: t in TeamsOf(teamMemberships, userID) <==> exists m :: m in r && m.teamID == t
    {
      r := [];
      var rest := teamMemberships.Keys;
      while rest != {}
        invariant rest <= teamMemberships.Keys
        invariant forall k <- teamMemberships.Keys - rest ::
          teamMemberships[k].userID == userID ==> teamMemberships[k] in r
        invariant forall m <- r :: m.userID == userID && exists k :: k in teamMemberships && teamMemberships[k] == m
      {
        var k :| k in rest;
        rest := rest - {k};
        if teamMemberships[k].userID == userID {
          r := r + [teamMemberships[k]];
        }
      }
    }
  }

  // ---------------------------------------------------------------- what a sync does to the rows

  function NewRow(userID: string, teamID: string, now: int): Membership {
    Membership(userID, teamID, "member", 0.0, now)
  }

  ghost function KeysOf(userID: string, teams: set<string>): set<string> {
    set t | t in teams :: MembershipKey(userID, t)
  }

  /** `rows` are `was` with new rows for the user in `added` and without those in `removed`. */
  ghost predicate Changed(rows: Rows, was: Rows, userID: string, added: set<string>, removed: set<string>, now: int) {
    && rows.Keys == was.Keys + KeysOf(userID, added) - KeysOf(userID, removed)
    && (forall t <- added ::
          MembershipKey(userID, t) in rows ==> rows[MembershipKey(userID, t)] == NewRow(userID, t, now))
    && (forall k <- rows :: k !in KeysOf(userID, added) ==> k in was && rows[k] == was[k])
  }

  lemma AddOne(rows: Rows, was: Rows, userID: string, added: set<string>, t: string, now: int)
    requires Changed(rows, was, userID, added, {}, now)
    ensures Changed(rows[MembershipKey(userID, t) := NewRow(userID, t, now)], was, userID, added + {t}, {}, now)
  {
    forall other | other in added && MembershipKey(userID, other) == MembershipKey(userID, t)
      ensures other == t
    {
      SameTeam(userID, other, t);
    }
    assert KeysOf(userID, added + {t}) == KeysOf(userID, added) + {MembershipKey(userID, t)};
    assert KeysOf(userID, {}) == {};
  }

  lemma RemoveOne(rows: Rows, was: Rows, userID: string, added: set<string>, removed: set<string>, t: string, now: int)
    requires Changed(rows, was, userID, added, removed, now)
    ensures Changed(rows - {MembershipKey(userID, t)}, was, userID, added, removed + {t}, now)
  {
    assert KeysOf(userID, removed + {t}) == KeysOf(userID, removed) + {MembershipKey(userID, t)};
  }

  /** The rows of everyone else are what they were. */
  ghost predicate OthersKept(rows: Rows, was: Rows, userID: string) {
    && (forall k <- was :: was[k].userID != userID ==> k in rows && rows[k] == was[k])
    && (forall k <- rows :: rows[k].userID != userID ==> k in was && rows[k] == was[k])
  }

  /** Some team to be added has the key of a row that is there already. */
  ghost predicate Occupied(was: Rows, userID: string, added: set<string>) {
    exists t :: t in added && MembershipKey(userID, t) in was
  }

  ghost predicate Plan(was: Rows, userID: string, added: set<string>, removed: set<string>) {
    Keyed(was) && added !! TeamsOf(was, userID) && removed <= TeamsOf(was, userID)
  }

  lemma ChangedStaysKeyed(rows: Rows, was: Rows, userID: string, added: set<string>, removed: set<string>, now: int)
    requires Plan(was, userID, added, removed) && Changed(rows, was, userID, added, removed, now)
    ensures Keyed(rows)
  {
    forall k | k in rows
      ensures k == MembershipKey(rows[k].userID, rows[k].teamID)
    {
      if k in KeysOf(userID, added) {
        var t :| t in added && k == MembershipKey(userID, t);
      }
    }
  }

  /** The memberships of the user come out as planned, whatever the IDs look like. */
  lemma TeamsAfter(rows: Rows, was: Rows, userID: string, added: set<string>, removed: set<string>, now: int)
    requires Plan(was, userID, added, removed) && Changed(rows, was, userID, added, removed, now)
    ensures TeamsOf(rows, userID) == TeamsOf(was, userID) + added - removed
  {
    ChangedStaysKeyed(rows, was, userID, added, removed, now);
    forall t
      ensures t in TeamsOf(rows, userID) <==> t in TeamsOf(was, userID) + added - removed
    {
      InTeam(rows, userID, t);
      InTeam(was, userID, t);
      KeyIn(userID, t, added);
      KeyIn(userID, t, removed);
    }
  }

  lemma KeyIn(userID: string, t: string, teams: set<string>)
    ensures MembershipKey(userID, t) in KeysOf(userID, teams) <==> t in teams
  {
    if MembershipKey(userID, t) in KeysOf(userID, teams) {
      var other :| other in teams && MembershipKey(userID, t) == MembershipKey(userID, other);
      SameTeam(userID, t, other);
    }
  }

  /** Everyone else keeps their rows exactly when no key that is added is taken. */
  lemma OthersKeptIff(rows: Rows, was: Rows, userID: string, added: set<string>, removed: set<string>, now: int)
    requires Plan(was, userID, added, removed) && Changed(rows, was, userID, added, removed, now)
    ensures OthersKept(rows, was, userID) <==> !Occupied(was, userID, added)
  {
    if t :| t in added && MembershipKey(userID, t) in was {
      InTeam(was, userID, t);
      KeyIn(userID, t, removed);
      assert rows[MembershipKey(userID, t)] == NewRow(userID, t, now);
    } else {
      forall k | k in was && was[k].userID != userID
        ensures k in rows && rows[k] == was[k]
      {
        OwnRows(was, userID, removed, k);
      }
    }
  }

  /** The keys of teams a user is in are those of their own rows. */
  lemma OwnRows(was: Rows, userID: string, teams: set<string>, k: string)
    requires Keyed(was) && teams <= TeamsOf(was, userID)
    ensures k in KeysOf(userID, teams) ==> k in was && was[k].userID == userID
  {
    if k in KeysOf(userID, teams) {
      var t :| t in teams && k == MembershipKey(userID, t);
      InTeam(was, userID, t);
    }
  }

  ghost predicate ColonFree(id: string) {
    ':' !in id
  }

  /** Without colons in user IDs no two users share a key, whatever the team IDs. */
  lemma KeysApart(userA: string, teamA: string, userB: string, teamB: string)
    requires ColonFree(userA) && ColonFree(userB)
    requires MembershipKey(userA, teamA) == MembershipKey(userB, teamB)
    ensures userA == userB && teamA == teamB
  {
    var key := MembershipKey(userA, teamA);
    ColonComesAfter(userA, teamA, |userB|);
    ColonComesAfter(userB, teamB, |userA|);
    assert key[|userA|] == ':' && key[|userB|] == ':';
    assert key[..|userA|] == userA && key[..|userB|] == userB;
    SameTeam(userA, teamA, teamB);
  }

  lemma ColonComesAfter(userID: string, teamID: string, n: nat)
    requires ColonFree(userID)
    ensures n < |userID| ==> MembershipKey(userID, teamID)[n] != ':'
  {
    assert n < |userID| ==> MembershipKey(userID, teamID)[n] == userID[n];
  }

  ghost predicate UsersColonFree(rows: Rows) {
    forall k <- rows :: ColonFree(rows[k].userID)
  }

  lemma NotOccupied(was: Rows, userID: string, added: set<string>)
    requires Keyed(was) && UsersColonFree(was) && ColonFree(userID) && added !! TeamsOf(was, userID)
    ensures !Occupied(was, userID, added)
  {
    forall t | t in added
      ensures MembershipKey(userID, t) !in was
    {
      var key := MembershipKey(userID, t);
      if key in was {
        KeysApart(userID, t, was[key].userID, was[key].teamID);
        InTeam(was, userID, t);
      }
    }
  }

  // ---------------------------------------------------------------- what a sync promises

  datatype Config = Config(
    enabled: bool, autoCreateUsers: bool, autoCreateTeams: bool, removeFromUnlistedTeams: bool,
    syncUserRole: bool, defaultRole: string, defaultOrganizationID: string)

  datatype SyncRequest = SyncRequest(
    userID: string, email: Option<string>, role: string, teamIDs: seq<string>, organizationID: Option<string>)

  /** `warnings` holds the teams that could not be ensured. */
  datatype SyncResult = SyncResult(
    userCreated: bool, userUpdated: bool, userID: string,
    teamsAdded: seq<string>, teamsRemoved: seq<string>, teamsCreated: seq<string>,
    roleUpdated: bool, oldRole: string, newRole: string, warnings: seq<string>)

  const NO_RESULT := SyncResult(false, false, "", [], [], [], false, "", "", [])

  datatype Outcome = Ok(result: SyncResult) | ErrUserNotFound

  /** What the store holds. */
  datatype Db = Db(users: map<string, User>, teams: map<string, Team>, rows: Rows, orgs: OrgRows)

  ghost predicate Sound(db: Db) {
    Keyed(db.rows) && OrgKeyed(db.orgs) && forall id <- db.users :: db.users[id].id == id
  }

  function Listed(teamIDs: seq<string>): set<string> {
    set t | t in teamIDs
  }

  /** The listed teams the user is not in that exist or may be created. */
  ghost function Adds(c: Config, was: Db, userID: string, teamIDs: seq<string>): set<string> {
    set t | t in teamIDs && t !in TeamsOf(was.rows, userID) && (t in was.teams || c.autoCreateTeams)
  }

  ghost function Removes(c: Config, was: Db, userID: string, teamIDs: seq<string>): set<string> {
    if c.removeFromUnlistedTeams then TeamsOf(was.rows, userID) - Listed(teamIDs) else {}
  }

  /** The members of a list that are in a set, in order and as often as they occur. */
  ghost function Picked(list: seq<string>, from: set<string>): seq<string> {
    if list == [] then []
    else Picked(list[..|list| - 1], from) + if list[|list| - 1] in from then [list[|list| - 1]] else []
  }

  /** The list holds each member of the set once, and nothing else. */
  ghost predicate EachOnce(list: seq<string>, members: set<string>) {
    multiset(list) == multiset(members)
  }

  lemma NoteOne(list: seq<string>, members: set<string>, t: string)
    requires EachOnce(list, members) && t !in members
    ensures EachOnce(list + [t], members + {t})
  {
  }

  ghost predicate TeamsGrown(teams: map<string, Team>, was: map<string, Team>, created: set<string>) {
    && teams.Keys == was.Keys + created
    && (forall t <- was :: teams[t] == was[t])
    && (forall t <- created :: t in was || teams[t] == Team(t, true))
  }

  ghost predicate TeamsSynced(c: Config, was: Db, db: Db, userID: string, teamIDs: seq<string>,
                              now: int, r: SyncResult)
  {
    var added, removed := Adds(c, was, userID, teamIDs), Removes(c, was, userID, teamIDs);
    && Changed(db.rows, was.rows, userID, added, removed, now)
    && TeamsGrown(db.teams, was.teams, added)
    && r.teamsAdded == Picked(teamIDs, added)
    && r.warnings == Picked(teamIDs, Listed(teamIDs) - TeamsOf(was.rows, userID) - added)
    && EachOnce(r.teamsRemoved, removed) && EachOnce(r.teamsCreated, added - was.teams.Keys)
  }

  ghost predicate TeamsUntouched(was: Db, db: Db, r: SyncResult) {
    && db.rows == was.rows && db.teams == was.teams
    && r.teamsAdded == [] && r.teamsRemoved == [] && r.teamsCreated == [] && r.warnings == []
  }

  function DefaultRole(c: Config, role: string): string {
    if role != "" then role else if c.defaultRole != "" then c.defaultRole else "internal_user"
  }

  function NewUser(c: Config, req: SyncRequest): User {
    var organization := if req.organizationID.Some? then req.organizationID
                        else if c.defaultOrganizationID != "" then Some(c.defaultOrganizationID) else None;
    User(req.userID, req.email, DefaultRole(c, req.role), organization, true)
  }

  ghost predicate UserSynced(c: Config, was: Db, db: Db, req: SyncRequest, r: SyncResult) {
    var before := if req.userID in was.users then was.users[req.userID] else NewUser(c, req);
    var role := if c.syncUserRole && req.role != "" then req.role else before.role;
    && db.users == was.users[req.userID := before.(role := role)]
    && r.userID == req.userID
    && r.userCreated == (req.userID !in was.users)
    && r.roleUpdated == r.userUpdated == (before.role != role)
    && r.oldRole == (if r.roleUpdated then before.role else "")
    && r.newRole == (if r.roleUpdated then role else "")
  }

  /** The organization a request asks for. */
  function Asked(req: SyncRequest): set<string> {
    if req.organizationID.Some? && req.organizationID.value != "" then {req.organizationID.value} else {}
  }

  function NewOrgRow(userID: string, orgID: string, now: int): OrgMembership {
    OrgMembership(userID, orgID, "member", 0.0, now)
  }

  /** No organization row is lost or changed; the only new one is for what the request asks. */
  ghost predicate OrgsSynced(was: OrgRows, rows: OrgRows, req: SyncRequest, now: int) {
    && rows.Keys == was.Keys + KeysOf(req.userID, Asked(req))
    && (forall k <- was :: rows[k] == was[k])
    && (forall o <- Asked(req) ::
          MembershipKey(req.userID, o) in was || rows[MembershipKey(req.userID, o)] == NewOrgRow(req.userID, o, now))
  }

  /** One sync takes the store from `was` to `db`. */
  ghost predicate Synced(c: Config, req: SyncRequest, now: int, was: Db, db: Db, outcome: Outcome) {
    if !c.enabled then db == was && outcome == Ok(NO_RESULT)
    else if req.userID !in was.users && !c.autoCreateUsers then db == was && outcome == ErrUserNotFound
    else
      && outcome.Ok? && UserSynced(c, was, db, req, outcome.result) && OrgsSynced(was.orgs, db.orgs, req, now)
      && if req.teamIDs == [] then TeamsUntouched(was, db, outcome.result)
         else TeamsSynced(c, was, db, req.userID, req.teamIDs, now, outcome.result)
  }

  /** The teams of the user after a sync that runs, for every configuration. */
  ghost function Settled(c: Config, was: Db, req: SyncRequest): set<string> {
    var current := TeamsOf(was.rows, req.userID);
    if req.teamIDs == [] then current
    else
      (if c.removeFromUnlistedTeams then current * Listed(req.teamIDs) else current)
      + (set t | t in req.teamIDs && (t in was.teams || c.autoCreateTeams))
  }

  lemma OrgsStayKeyed(was: OrgRows, rows: OrgRows, req: SyncRequest, now: int)
    requires OrgKeyed(was) && OrgsSynced(was, rows, req, now)
    ensures OrgKeyed(rows)
  {
    forall k | k in rows
      ensures k == MembershipKey(rows[k].userID, rows[k].organizationID)
    {
      if k !in was {
        var o :| o in Asked(req) && k == MembershipKey(req.userID, o);
      }
    }
  }

  /** The row of another user stands under the key of the organization asked for. */
  ghost predicate OrgTaken(was: OrgRows, req: SyncRequest) {
    exists o :: o in Asked(req) && MembershipKey(req.userID, o) in was &&
                was[MembershipKey(req.userID, o)].userID != req.userID
  }

  /** The user is in the organizations they were in, and in the one asked for exactly if its key is not another's. */
  lemma OrganizationsAfterIff(was: OrgRows, rows: OrgRows, req: SyncRequest, now: int)
    requires OrgKeyed(was) && OrgsSynced(was, rows, req, now)
    ensures OrganizationsOf(rows, req.userID) == OrganizationsOf(was, req.userID) + Asked(req) <==> !OrgTaken(was, req)
  {
    OrgsStayKeyed(was, rows, req, now);
    forall o
      ensures o in OrganizationsOf(rows, req.userID) <==>
        o in OrganizationsOf(was, req.userID) || (o in Asked(req) && MembershipKey(req.userID, o) !in was)
    {
      InOrganization(rows, req.userID, o);
      InOrganization(was, req.userID, o);
      KeyIn(req.userID, o, Asked(req));
    }
    if OrgTaken(was, req) {
      var o :| o in Asked(req) && MembershipKey(req.userID, o) in was &&
               was[MembershipKey(req.userID, o)].userID != req.userID;
      InOrganization(was, req.userID, o);
    } else {
      forall o | o in Asked(req)
        ensures o in OrganizationsOf(rows, req.userID)
      {
        InOrganization(rows, req.userID, o);
      }
    }
  }

  /** With a colon in a user ID: user `a` asks for organization `b:c` in vain while user `a:b` is in `c`. */
  lemma ColonBlocksOrganization(was: OrgRows, rows: OrgRows, req: SyncRequest, now: int)
    requires was == map["a:b:c" := OrgMembership("a:b", "c", "member", 0.0, 0)]
    requires req.userID == "a" && req.organizationID == Some("b:c") && OrgsSynced(was, rows, req, now)
    ensures rows == was && OrganizationsOf(rows, "a") == {}
  {
    assert MembershipKey("a", "b:c") == "a:b:c";
    assert Asked(req) == {"b:c"} && KeysOf("a", {"b:c"}) == {"a:b:c"};
    assert "a:b" != "a" by {
      assert |"a:b"| == 3;
    }
  }

  /** Everyone else is in the organizations they were in. */
  lemma OthersOrganizations(was: OrgRows, rows: OrgRows, req: SyncRequest, now: int, other: string)
    requires OrgKeyed(was) && OrgsSynced(was, rows, req, now) && other != req.userID
    ensures OrganizationsOf(rows, other) == OrganizationsOf(was, other)
  {
    forall k | k in rows && k !in was
      ensures rows[k].userID == req.userID
    {
      var o :| o in Asked(req) && k == MembershipKey(req.userID, o);
    }
    forall o
      ensures o in OrganizationsOf(rows, other) <==> o in OrganizationsOf(was, other)
    {
      if o in OrganizationsOf(was, other) {
        var k :| k in was && was[k].userID == other && was[k].organizationID == o;
        assert rows[k].organizationID == o;
      }
      if o in OrganizationsOf(rows, other) {
        var k :| k in rows && rows[k].userID == other && rows[k].organizationID == o;
        assert was[k].organizationID == o;
      }
    }
  }

  lemma SyncSettles(c: Config, req: SyncRequest, now: int, was: Db, db: Db, outcome: Outcome)
    requires Sound(was) && Synced(c, req, now, was, db, outcome) && c.enabled && outcome.Ok?
    ensures TeamsOf(db.rows, req.userID) == Settled(c, was, req)
  {
    if req.teamIDs != [] {
      var added, removed := Adds(c, was, req.userID, req.teamIDs), Removes(c, was, req.userID, req.teamIDs);
      TeamsAfter(db.rows, was.rows, req.userID, added, removed, now);
      SettledAsPlanned(c, was, req);
    }
  }

  lemma SettledAsPlanned(c: Config, was: Db, req: SyncRequest)
    requires req.teamIDs != []
    ensures Settled(c, was, req) ==
      TeamsOf(was.rows, req.userID) + Adds(c, was, req.userID, req.teamIDs) - Removes(c, was, req.userID, req.teamIDs)
  {
  }

  lemma SyncedStaysSound(c: Config, req: SyncRequest, now: int, was: Db, db: Db, outcome: Outcome)
    requires Sound(was) && Synced(c, req, now, was, db, outcome)
    ensures Sound(db)
  {
    if c.enabled && outcome.Ok? {
      OrgsStayKeyed(was.orgs, db.orgs, req, now);
      if req.teamIDs != [] {
        var added, removed := Adds(c, was, req.userID, req.teamIDs), Removes(c, was, req.userID, req.teamIDs);
        ChangedStaysKeyed(db.rows, was.rows, req.userID, added, removed, now);
      }
    }
  }

  /** A user made by a sync is active and has the e-mail address of the token, its role or the configured one, failing
      both `internal_user`, and its organization or the configured one. A known user changes in nothing but the role,
      and in that exactly if roles are synced and the token names another. Nobody else changes. */
  lemma SyncedUser(c: Config, req: SyncRequest, now: int, was: Db, db: Db, outcome: Outcome)
    requires Synced(c, req, now, was, db, outcome) && c.enabled && outcome.Ok?
    ensures db.users.Keys == was.users.Keys + {req.userID}
    ensures forall id <- was.users :: id != req.userID ==> db.users[id] == was.users[id]
    ensures var user := db.users[req.userID];
      if req.userID in was.users then
        user == was.users[req.userID].(role := user.role)
        && (user.role == req.role || user.role == was.users[req.userID].role)
        && (user.role == req.role <==> req.role == was.users[req.userID].role || (c.syncUserRole && req.role != ""))
      else
        && user.id == req.userID && user.email == req.email && user.active
        && user.role == (if req.role != "" then req.role
                         else if c.defaultRole != "" then c.defaultRole else "internal_user")
        && (req.organizationID.Some? ==> user.organizationID == req.organizationID)
        && (req.organizationID.None? ==>
              user.organizationID == if c.defaultOrganizationID == "" then None else Some(c.defaultOrganizationID))
  {
  }

  /** Every team a sync adds gives the user a row with role `member` and nothing spent, as does an organization whose
      key was free. */
  lemma NewRowsAreMembers(c: Config, req: SyncRequest, now: int, was: Db, db: Db, outcome: Outcome, id: string)
    requires Sound(was) && Synced(c, req, now, was, db, outcome) && c.enabled && outcome.Ok?
    ensures id in TeamsOf(db.rows, req.userID) && id !in TeamsOf(was.rows, req.userID) ==>
      var row := db.rows[MembershipKey(req.userID, id)];
      row == Membership(req.userID, id, "member", 0.0, now)
    ensures id in OrganizationsOf(db.orgs, req.userID) && id !in OrganizationsOf(was.orgs, req.userID) ==>
      var row := db.orgs[MembershipKey(req.userID, id)];
      row == OrgMembership(req.userID, id, "member", 0.0, now)
  {
    SyncedStaysSound(c, req, now, was, db, outcome);
    InTeam(db.rows, req.userID, id);
    InTeam(was.rows, req.userID, id);
    InOrganization(db.orgs, req.userID, id);
    InOrganization(was.orgs, req.userID, id);
    if req.teamIDs != [] {
      KeyIn(req.userID, id, Adds(c, was, req.userID, req.teamIDs));
    }
    KeyIn(req.userID, id, Asked(req));
  }

  /** With creation and removal on, the user ends up in exactly the listed teams. */
  lemma SyncConverges(c: Config, req: SyncRequest, now: int, was: Db, db: Db, outcome: Outcome)
    requires Sound(was) && Synced(c, req, now, was, db, outcome) && c.enabled && outcome.Ok?
    requires c.autoCreateTeams && c.removeFromUnlistedTeams && req.teamIDs != []
    ensures TeamsOf(db.rows, req.userID) == Listed(req.teamIDs)
  {
    SyncSettles(c, req, now, was, db, outcome);
  }

  /** Everyone else keeps their rows exactly when no key of a team to be added is taken. */
  lemma SyncKeepsOthersIff(c: Config, req: SyncRequest, now: int, was: Db, db: Db, outcome: Outcome)
    requires Sound(was) && Synced(c, req, now, was, db, outcome) && c.enabled && outcome.Ok? && req.teamIDs != []
    ensures OthersKept(db.rows, was.rows, req.userID) <==>
      !Occupied(was.rows, req.userID, Adds(c, was, req.userID, req.teamIDs))
  {
    var added, removed := Adds(c, was, req.userID, req.teamIDs), Removes(c, was, req.userID, req.teamIDs);
    OthersKeptIff(db.rows, was.rows, req.userID, added, removed, now);
  }

  /** With a colon in a user ID, a sync of one user takes the row of another: any sync of user `a` to team `b:c` that
      may create what is missing, where user `a:b` is in team `c`. */
  lemma ColonTakesRow(c: Config, now: int, was: Db, db: Db, outcome: Outcome)
    requires c.enabled && c.autoCreateUsers && c.autoCreateTeams && Sound(was)
    requires was.rows == map["a:b:c" := Membership("a:b", "c", "admin", 5.0, 0)]
    requires Synced(c, SyncRequest("a", None, "", ["b:c"], None), now, was, db, outcome)
    ensures !OthersKept(db.rows, was.rows, "a") && db.rows == map["a:b:c" := NewRow("a", "b:c", now)]
  {
    ColonPlan(c, was);
    ColonRow(db.rows, was.rows, now);
    SyncKeepsOthersIff(c, SyncRequest("a", None, "", ["b:c"], None), now, was, db, outcome);
  }

  lemma ColonPlan(c: Config, was: Db)
    requires c.autoCreateTeams && was.rows == map["a:b:c" := Membership("a:b", "c", "admin", 5.0, 0)]
    ensures Adds(c, was, "a", ["b:c"]) == {"b:c"} && Removes(c, was, "a", ["b:c"]) == {}
    ensures Occupied(was.rows, "a", {"b:c"})
  {
    assert MembershipKey("a", "b:c") == "a:b:c";
    assert "a:b" != "a" by {
      assert |"a:b"| == 3;
    }
    assert TeamsOf(was.rows, "a") == {};
  }

  lemma ColonRow(rows: Rows, was: Rows, now: int)
    requires was.Keys == {"a:b:c"} && Changed(rows, was, "a", {"b:c"}, {}, now)
    ensures rows == map["a:b:c" := NewRow("a", "b:c", now)]
  {
    assert MembershipKey("a", "b:c") == "a:b:c";
    assert KeysOf("a", {"b:c"}) == {"a:b:c"} && KeysOf("a", {}) == {};
  }

  lemma SyncKeepsOthers(c: Config, req: SyncRequest, now: int, was: Db, db: Db, outcome: Outcome)
    requires Sound(was) && Synced(c, req, now, was, db, outcome)
    requires UsersColonFree(was.rows) && ColonFree(req.userID)
    ensures OthersKept(db.rows, was.rows, req.userID)
  {
    if c.enabled && outcome.Ok? && req.teamIDs != [] {
      NotOccupied(was.rows, req.userID, Adds(c, was, req.userID, req.teamIDs));
      SyncKeepsOthersIff(c, req, now, was, db, outcome);
    }
  }

  lemma {:induction false} PickedNone(list: seq<string>, from: set<string>)
    requires Listed(list) !! from
    ensures Picked(list, from) == []
  {
    if list != [] {
      assert list[|list| - 1] in Listed(list);
      forall t | t in list[..|list| - 1]
        ensures t in Listed(list)
      {
      }
      PickedNone(list[..|list| - 1], from);
    }
  }

  lemma NothingLeft(c: Config, req: SyncRequest, now: int, was: Db, db: Db, outcome: Outcome)
    requires Sound(was) && Synced(c, req, now, was, db, outcome) && c.enabled && outcome.Ok? && req.teamIDs != []
    ensures Adds(c, db, req.userID, req.teamIDs) == {} && Removes(c, db, req.userID, req.teamIDs) == {}
  {
    SyncSettles(c, req, now, was, db, outcome);
    forall t | t in req.teamIDs && (t in db.teams || c.autoCreateTeams)
      ensures t in TeamsOf(db.rows, req.userID)
    {
    }
  }

  /** The same sync again changes nothing in the store and reports nothing added, removed, created or updated. */
  lemma SyncIsIdempotent(c: Config, req: SyncRequest, now: int, later: int, was: Db, db: Db, again: Db,
                         first: Outcome, second: Outcome)
    requires Sound(was) && Synced(c, req, now, was, db, first) && Synced(c, req, later, db, again, second)
    ensures again == db && second.Ok? == first.Ok?
    ensures first.Ok? && c.enabled ==>
      second.result == NO_RESULT.(userID := req.userID, warnings := second.result.warnings)
  {
    if c.enabled && first.Ok? {
      UserSettled(c, req, now, later, was, db, again, first, second);
      TeamsSettled(c, req, now, later, was, db, again, first, second);
      OrgsSettled(was.orgs, db.orgs, again.orgs, req, now, later);
    }
  }

  lemma OrgsSettled(was: OrgRows, rows: OrgRows, again: OrgRows, req: SyncRequest, now: int, later: int)
    requires OrgsSynced(was, rows, req, now) && OrgsSynced(rows, again, req, later)
    ensures again == rows
  {
    assert again.Keys == rows.Keys;
  }

  lemma TeamsSettled(c: Config, req: SyncRequest, now: int, later: int, was: Db, db: Db, again: Db,
                     first: Outcome, second: Outcome)
    requires Sound(was) && Synced(c, req, now, was, db, first) && Synced(c, req, later, db, again, second)
    requires c.enabled && first.Ok? && second.Ok?
    ensures again.rows == db.rows && again.teams == db.teams
    ensures second.result.teamsAdded == [] && second.result.teamsRemoved == [] && second.result.teamsCreated == []
  {
    if req.teamIDs != [] {
      NothingLeft(c, req, now, was, db, first);
      NothingToDo(c, db, again, req.userID, req.teamIDs, later, second.result);
    }
  }

  lemma NothingToDo(c: Config, was: Db, db: Db, userID: string, teamIDs: seq<string>, now: int, r: SyncResult)
    requires TeamsSynced(c, was, db, userID, teamIDs, now, r)
    requires Adds(c, was, userID, teamIDs) == {} && Removes(c, was, userID, teamIDs) == {}
    ensures db.rows == was.rows && db.teams == was.teams
    ensures r.teamsAdded == [] && r.teamsRemoved == [] && r.teamsCreated == []
  {
    UnchangedRows(db.rows, was.rows, userID, now);
    PickedNone(teamIDs, {});
    EmptyList(r.teamsRemoved);
    EmptyList(r.teamsCreated);
  }

  lemma UserSettled(c: Config, req: SyncRequest, now: int, later: int, was: Db, db: Db, again: Db,
                    first: Outcome, second: Outcome)
    requires Synced(c, req, now, was, db, first) && Synced(c, req, later, db, again, second)
    requires c.enabled && first.Ok?
    ensures second.Ok? && again.users == db.users
    ensures second.result.userID == req.userID && second.result.oldRole == second.result.newRole == ""
    ensures !second.result.userCreated && !second.result.userUpdated && !second.result.roleUpdated
  {
  }

  lemma UnchangedRows(rows: Rows, was: Rows, userID: string, now: int)
    requires Changed(rows, was, userID, {}, {}, now)
    ensures rows == was
  {
    assert KeysOf(userID, {}) == {};
  }

  lemma OneLess(current: set<string>, rest: set<string>, listed: set<string>, t: string)
    requires t in rest && rest <= current
    ensures current - (rest - {t}) - listed == current - rest - listed + (if t in listed then {} else {t})
    ensures t !in current - rest - listed
  {
  }

  lemma EmptyList(list: seq<string>)
    requires EachOnce(list, {})
    ensures list == []
  {
    assert |list| == |multiset(list)|;
  }

  // ---------------------------------------------------------------- every run of syncs

  /** A run: each request takes the store from one content to the next. */
  ghost predicate Trace(c: Config, reqs: seq<SyncRequest>, times: seq<int>, dbs: seq<Db>, outcomes: seq<Outcome>) {
    TraceTo(c, reqs, times, dbs, outcomes, |reqs|)
  }

  /** The first `n` requests of a run. */
  ghost predicate TraceTo(c: Config, reqs: seq<SyncRequest>, times: seq<int>, dbs: seq<Db>, outcomes: seq<Outcome>,
                          n: nat)
  {
    && n <= |reqs| == |times| && |dbs| == n + 1 && |outcomes| == n
    && forall i :: 0 <= i < n ==> Synced(c, reqs[i], times[i], dbs[i], dbs[i + 1], outcomes[i])
  }

  lemma TraceOne(c: Config, reqs: seq<SyncRequest>, times: seq<int>, dbs: seq<Db>, outcomes: seq<Outcome>, n: nat,
                 db: Db, outcome: Outcome)
    requires TraceTo(c, reqs, times, dbs, outcomes, n) && n < |reqs|
    requires Synced(c, reqs[n], times[n], dbs[n], db, outcome)
    ensures TraceTo(c, reqs, times, dbs + [db], outcomes + [outcome], n + 1)
  {
    var dbs', outcomes' := dbs + [db], outcomes + [outcome];
    forall i | 0 <= i < n + 1
      ensures Synced(c, reqs[i], times[i], dbs'[i], dbs'[i + 1], outcomes'[i])
    {
    }
  }

  /** The teams of the last list a user came with in the first `n` requests; those at the start if there was none. */
  ghost function LastList(reqs: seq<SyncRequest>, n: nat, userID: string, start: set<string>): set<string>
    requires n <= |reqs|
  {
    if n == 0 then start
    else if reqs[n - 1].userID == userID && reqs[n - 1].teamIDs != [] then Listed(reqs[n - 1].teamIDs)
    else LastList(reqs, n - 1, userID, start)
  }

  lemma OthersTeams(rows: Rows, was: Rows, userID: string, other: string)
    requires OthersKept(rows, was, userID) && other != userID
    ensures TeamsOf(rows, other) == TeamsOf(was, other)
  {
    forall t
      ensures t in TeamsOf(rows, other) <==> t in TeamsOf(was, other)
    {
      if t in TeamsOf(was, other) {
        var k :| k in was && was[k].userID == other && was[k].teamID == t;
        assert rows[k].teamID == t;
      }
      if t in TeamsOf(rows, other) {
        var k :| k in rows && rows[k].userID == other && rows[k].teamID == t;
        assert was[k].teamID == t;
      }
    }
  }

  lemma SyncedStaysColonFree(c: Config, req: SyncRequest, now: int, was: Db, db: Db, outcome: Outcome)
    requires Sound(was) && Synced(c, req, now, was, db, outcome)
    requires UsersColonFree(was.rows) && ColonFree(req.userID)
    ensures Sound(db) && UsersColonFree(db.rows)
  {
    SyncKeepsOthers(c, req, now, was, db, outcome);
    SyncedStaysSound(c, req, now, was, db, outcome);
    forall k | k in db.rows
      ensures ColonFree(db.rows[k].userID)
    {
      if db.rows[k].userID != req.userID {
        assert db.rows[k] == was.rows[k];
      }
    }
  }

  /** What a run of syncs can rely on, and what it then knows of the teams of `userID` after one sync. */
  ghost predicate ListWins(req: SyncRequest, was: Db, db: Db, userID: string) {
    Sound(was) && UsersColonFree(was.rows) ==>
      && Sound(db) && UsersColonFree(db.rows)
      && TeamsOf(db.rows, userID) ==
         if req.userID == userID && req.teamIDs != [] then Listed(req.teamIDs) else TeamsOf(was.rows, userID)
  }

  lemma OneMoreSync(c: Config, req: SyncRequest, now: int, was: Db, db: Db, outcome: Outcome, userID: string)
    requires Synced(c, req, now, was, db, outcome) && ColonFree(req.userID)
    requires c.enabled && c.autoCreateUsers && c.autoCreateTeams && c.removeFromUnlistedTeams
    ensures ListWins(req, was, db, userID)
  {
    if Sound(was) && UsersColonFree(was.rows) {
      SyncedStaysColonFree(c, req, now, was, db, outcome);
      if req.userID == userID {
        SyncSettles(c, req, now, was, db, outcome);
      } else {
        SyncKeepsOthers(c, req, now, was, db, outcome);
        OthersTeams(db.rows, was.rows, req.userID, userID);
      }
    }
  }

  lemma {:induction false} LastListStays(reqs: seq<SyncRequest>, dbs: seq<Db>, n: nat, userID: string)
    requires n <= |reqs| && |dbs| == |reqs| + 1 && Sound(dbs[0]) && UsersColonFree(dbs[0].rows)
    requires forall i :: 0 <= i < |reqs| ==> ListWins(reqs[i], dbs[i], dbs[i + 1], userID)
    ensures Sound(dbs[n]) && UsersColonFree(dbs[n].rows)
    ensures TeamsOf(dbs[n].rows, userID) == LastList(reqs, n, userID, TeamsOf(dbs[0].rows, userID))
  {
    if n > 0 {
      LastListStays(reqs, dbs, n - 1, userID);
      assert ListWins(reqs[n - 1], dbs[n - 1], dbs[n], userID);
    }
  }

  /** At every point of any run over any users, each is in exactly the teams of the last list they came with. */
  lemma LastListWins(c: Config, reqs: seq<SyncRequest>, times: seq<int>, dbs: seq<Db>, outcomes: seq<Outcome>, n: nat,
                     userID: string)
    requires Trace(c, reqs, times, dbs, outcomes) && Sound(dbs[0]) && UsersColonFree(dbs[0].rows)
    requires n <= |reqs| && forall req <- reqs :: ColonFree(req.userID)
    requires c.enabled && c.autoCreateUsers && c.autoCreateTeams && c.removeFromUnlistedTeams
    ensures TeamsOf(dbs[n].rows, userID) == LastList(reqs, n, userID, TeamsOf(dbs[0].rows, userID))
  {
    forall i | 0 <= i < |reqs|
      ensures ListWins(reqs[i], dbs[i], dbs[i + 1], userID)
    {
      OneMoreSync(c, reqs[i], times[i], dbs[i], dbs[i + 1], outcomes[i], userID);
    }
    LastListStays(reqs, dbs, n, userID);
  }

  ghost predicate OrgUsersColonFree(rows: OrgRows) {
    forall k <- rows :: ColonFree(rows[k].userID)
  }

  /** The organizations a user asked for in the first `n` requests. */
  ghost function AllAsked(reqs: seq<SyncRequest>, n: nat, userID: string): set<string>
    requires n <= |reqs|
  {
    if n == 0 then {}
    else AllAsked(reqs, n - 1, userID) + if reqs[n - 1].userID == userID then Asked(reqs[n - 1]) else {}
  }

  lemma OneMoreAsked(was: OrgRows, rows: OrgRows, req: SyncRequest, now: int, userID: string)
    requires OrgKeyed(was) && OrgUsersColonFree(was) && ColonFree(req.userID) && OrgsSynced(was, rows, req, now)
    ensures OrgKeyed(rows) && OrgUsersColonFree(rows)
    ensures OrganizationsOf(rows, userID) ==
      OrganizationsOf(was, userID) + if req.userID == userID then Asked(req) else {}
  {
    OrgsStayKeyed(was, rows, req, now);
    forall k | k in rows && k !in was
      ensures rows[k].userID == req.userID
    {
      var o :| o in Asked(req) && k == MembershipKey(req.userID, o);
    }
    if req.userID == userID {
      NotTaken(was, req);
      OrganizationsAfterIff(was, rows, req, now);
    } else {
      OthersOrganizations(was, rows, req, now, userID);
    }
  }

  lemma NotTaken(was: OrgRows, req: SyncRequest)
    requires OrgKeyed(was) && OrgUsersColonFree(was) && ColonFree(req.userID)
    ensures !OrgTaken(was, req)
  {
    forall o | o in Asked(req) && MembershipKey(req.userID, o) in was
      ensures was[MembershipKey(req.userID, o)].userID == req.userID
    {
      var row := was[MembershipKey(req.userID, o)];
      KeysApart(req.userID, o, row.userID, row.organizationID);
    }
  }

  /** At every point of any run over any users, each is in exactly the organizations they were in or asked for. */
  lemma {:induction false} OrganizationsAccumulate(c: Config, reqs: seq<SyncRequest>, times: seq<int>, dbs: seq<Db>,
                                                   outcomes: seq<Outcome>, n: nat, userID: string)
    requires Trace(c, reqs, times, dbs, outcomes) && OrgKeyed(dbs[0].orgs) && OrgUsersColonFree(dbs[0].orgs)
    requires n <= |reqs| && forall req <- reqs :: ColonFree(req.userID)
    requires c.enabled && c.autoCreateUsers
    ensures OrgKeyed(dbs[n].orgs) && OrgUsersColonFree(dbs[n].orgs)
    ensures OrganizationsOf(dbs[n].orgs, userID) == OrganizationsOf(dbs[0].orgs, userID) + AllAsked(reqs, n, userID)
  {
    if n > 0 {
      var i := n - 1;
      OrganizationsAccumulate(c, reqs, times, dbs, outcomes, i, userID);
      OneMoreAsked(dbs[i].orgs, dbs[i + 1].orgs, reqs[i], times[i], userID);
    }
  }

  // ---------------------------------------------------------------- the syncer

  class UserTeamSyncer {
    const store: MemoryStore
    const config: Config

    constructor (store: MemoryStore, config: Config)
      ensures this.store == store && this.config == config
    {
      this.store, this.config := store, config;
    }

    ghost function Contents(): Db
      reads store
    {
      Db(store.users, store.teams, store.teamMemberships, store.orgMemberships)
    }

    method EnsureUser(req: SyncRequest) returns (user: Option<User>, created: bool)
      modifies store`users
      ensures user.None? <==> req.userID !in old(store.users) && !config.autoCreateUsers
      ensures created <==> req.userID !in old(store.users) && config.autoCreateUsers
      ensures user.None? ==> store.users == old(store.users)
      ensures user.Some? ==>
        && user.value == (if created then NewUser(config, req) else old(store.users)[req.userID])
        && store.users == old(store.users)[req.userID := user.value]
    {
      if req.userID in store.users {
        return Some(store.users[req.userID]), false;
      }
      if !config.autoCreateUsers {
        return None, false;
      }
      var newcomer := NewUser(config, req);
      store.users := store.users[newcomer.id := newcomer];
      return Some(newcomer), true;
    }

    method SyncUserRole(user: User, newRole: string) returns (updated: bool)
      requires user.id in store.users && store.users[user.id] == user
      modifies store`users
      ensures updated <==> user.role != newRole
      ensures store.users == old(store.users)[user.id := user.(role := newRole)]
    {
      if user.role == newRole {
        return false;
      }
      store.users := store.users[user.id := user.(role := newRole)];
      return true;
    }

    method EnsureTeam(teamID: string) returns (ok: bool, created: bool)
      modifies store`teams
      ensures ok <==> teamID in old(store.teams) || config.autoCreateTeams
      ensures created <==> ok && teamID !in old(store.teams)
      ensures store.teams == if created then old(store.teams)[teamID := Team(teamID, true)] else old(store.teams)
    {
      if teamID in store.teams {
        return true, false;
      }
      if !config.autoCreateTeams {
        return false, false;
      }
      store.teams := store.teams[teamID := Team(teamID, true)];
      return true, true;
    }

    method AddToTeams(userID: string, teamIDs: seq<string>, current: set<string>, now: int)
      returns (added: seq<string>, created: seq<string>, warnings: seq<string>)
      requires current == TeamsOf(store.teamMemberships, userID)
      modifies store`teams, store`teamMemberships
      ensures var adds := Adds(config, old(Contents()), userID, teamIDs);
        && Grown(store.teamMemberships, store.teams, old(Contents()), userID, adds, now)
        && added == Picked(teamIDs, adds)
        && warnings == Picked(teamIDs, Listed(teamIDs) - current - adds)
        && EachOnce(created, adds - old(store.teams).Keys)
    {
      ghost var was := Contents();
      ghost var plan := MakePlan(config, was, userID, teamIDs);
      StartOfList(plan, was, userID, now);
      added, created, warnings := [], [], [];
      for i := 0 to |teamIDs|
        invariant Grown(store.teamMemberships, store.teams, was, userID, Reached(plan, i), now)
        invariant Logged(plan, i, added, created, warnings)
      {
        ReachedNext(config, was, userID, teamIDs, i);
        var ok, isNew := AddNext(userID, teamIDs[i], current, now, was, Reached(plan, i));
        LogOne(plan, i, added, created, warnings, isNew);
        added := if ok then added + [teamIDs[i]] else added;
        warnings := if teamIDs[i] in current || ok then warnings else warnings + [teamIDs[i]];
        created := if isNew then created + [teamIDs[i]] else created;
      }
      EndOfList(plan, added, created, warnings);
    }

    method AddNext(userID: string, teamID: string, current: set<string>, now: int,
                   ghost was: Db, ghost reached: set<string>)
      returns (ok: bool, created: bool)
      requires Grown(store.teamMemberships, store.teams, was, userID, reached, now)
      requires reached <= was.teams.Keys || config.autoCreateTeams
      modifies store`teams, store`teamMemberships
      ensures ok <==> teamID !in current && (teamID in was.teams || config.autoCreateTeams)
      ensures created <==> ok && teamID !in was.teams && teamID !in reached
      ensures Grown(store.teamMemberships, store.teams, was, userID, if ok then reached + {teamID} else reached, now)
    {
      ok, created := false, false;
      if teamID !in current {
        ok, created := AddToTeam(userID, teamID, now, was, reached);
      }
    }

    method AddToTeam(userID: string, teamID: string, now: int, ghost was: Db, ghost reached: set<string>)
      returns (ok: bool, created: bool)
      requires Grown(store.teamMemberships, store.teams, was, userID, reached, now)
      requires reached <= was.teams.Keys || config.autoCreateTeams
      modifies store`teams, store`teamMemberships
      ensures ok <==> teamID in was.teams || config.autoCreateTeams
      ensures created <==> ok && teamID !in was.teams && teamID !in reached
      ensures Grown(store.teamMemberships, store.teams, was, userID, if ok then reached + {teamID} else reached, now)
    {
      ghost var rows, teams := store.teamMemberships, store.teams;
      ok, created := EnsureTeam(teamID);
      if ok {
        AddOne(rows, was.rows, userID, reached, teamID, now);
        GrowOne(teams, was.teams, reached, teamID);
        store.CreateTeamMembership(NewRow(userID, teamID, now));
      }
    }

    method RemoveFromTeams(userID: string, current: set<string>, listed: set<string>,
                           ghost was: Rows, ghost added: set<string>, ghost now: int)
      returns (removed: seq<string>)
      requires Changed(store.teamMemberships, was, userID, added, {}, now)
      modifies store`teamMemberships
      ensures Changed(store.teamMemberships, was, userID, added, current - listed, now)
      ensures EachOnce(removed, current - listed)
    {
      removed := [];
      var rest := current;
      ghost var done := {};
      while rest != {}
        invariant rest <= current && done == current - rest - listed
        invariant Changed(store.teamMemberships, was, userID, added, done, now) && EachOnce(removed, done)
      {
        var teamID :| teamID in rest;
        OneLess(current, rest, listed, teamID);
        if teamID !in listed {
          RemoveFromTeam(userID, teamID, was, added, done, now);
          NoteOne(removed, done, teamID);
          removed, done := removed + [teamID], done + {teamID};
        }
        rest := rest - {teamID};
      }
    }

    method RemoveFromTeam(userID: string, teamID: string, ghost was: Rows, ghost added: set<string>,
                          ghost done: set<string>, ghost now: int)
      requires Changed(store.teamMemberships, was, userID, added, done, now)
      modifies store`teamMemberships
      ensures Changed(store.teamMemberships, was, userID, added, done + {teamID}, now)
    {
      RemoveOne(store.teamMemberships, was, userID, added, done, teamID, now);
      store.DeleteTeamMembership(userID, teamID);
    }

    method SyncTeamMemberships(userID: string, teamIDs: seq<string>, now: int, result: SyncResult)
      returns (r: SyncResult)
      modifies store`teams, store`teamMemberships
      ensures TeamsSynced(config, old(Contents()), Contents(), userID, teamIDs, now, r)
      ensures r == result.(teamsAdded := r.teamsAdded, teamsRemoved := r.teamsRemoved,
                           teamsCreated := r.teamsCreated, warnings := r.warnings)
    {
      ghost var was := Contents();
      var memberships := store.ListUserTeamMemberships(userID);
      var current := set m | m in memberships :: m.teamID;
      assert current == TeamsOf(was.rows, userID);
      var added, created, warnings := AddToTeams(userID, teamIDs, current, now);
      var removed := [];
      if config.removeFromUnlistedTeams {
        removed := RemoveFromTeams(userID, current, Listed(teamIDs), was.rows, Adds(config, was, userID, teamIDs), now);
      }
      r := result.(teamsAdded := added, teamsRemoved := removed, teamsCreated := created, warnings := warnings);
    }

    /** One sync does what it promises, for every configuration, request and store. */
    method SyncUserTeams(req: SyncRequest, now: int) returns (outcome: Outcome)
      requires Sound(Contents())
      modifies store
      ensures Synced(config, req, now, old(Contents()), Contents(), outcome)
    {
      if !config.enabled {
        return Ok(NO_RESULT);
      }
      var user, created := EnsureUser(req);
      if user.None? {
        return ErrUserNotFound;
      }
      var r := NO_RESULT.(userCreated := created, userID := user.value.id);
      if config.syncUserRole && req.role != "" {
        var updated := SyncUserRole(user.value, req.role);
        if updated {
          r := r.(roleUpdated := true, userUpdated := true, oldRole := user.value.role, newRole := req.role);
        }
      }
      ghost var mid := Contents();
      assert UserSynced(config, old(Contents()), mid, req, r);
      if |req.teamIDs| > 0 {
        r := SyncTeamMemberships(user.value.id, req.teamIDs, now, r);
      }
      SyncOrganization(req, now);
      return Ok(r);
    }

    method SyncOrganization(req: SyncRequest, now: int)
      modifies store`orgMemberships
      ensures OrgsSynced(old(store.orgMemberships), store.orgMemberships, req, now)
    {
      if req.organizationID.Some? && req.organizationID.value != "" {
        SyncOrganizationMembership(req.userID, req.organizationID.value, now);
      }
    }

    /** A row for the organization, unless one stands under that key. */
    method SyncOrganizationMembership(userID: string, orgID: string, now: int)
      modifies store`orgMemberships
      ensures var key := MembershipKey(userID, orgID);
        store.orgMemberships ==
          if key in old(store.orgMemberships) then old(store.orgMemberships)
          else old(store.orgMemberships)[key := NewOrgRow(userID, orgID, now)]
    {
      var membership := store.GetOrganizationMembership(userID, orgID);
      if membership.Some? {
        return;
      }
      store.CreateOrganizationMembership(NewOrgRow(userID, orgID, now));
    }

    /** Requests one after another are a run in the sense of `Trace`. */
    method SyncAll(reqs: seq<SyncRequest>, times: seq<int>) returns (outcomes: seq<Outcome>, ghost dbs: seq<Db>)
      requires Sound(Contents()) && |times| == |reqs|
      modifies store
      ensures Trace(config, reqs, times, dbs, outcomes) && Sound(Contents())
      ensures dbs[0] == old(Contents()) && dbs[|reqs|] == Contents()
    {
      outcomes, dbs := [], [Contents()];
      for i := 0 to |reqs|
        invariant TraceTo(config, reqs, times, dbs, outcomes, i) && Sound(Contents())
        invariant dbs[0] == old(Contents()) && dbs[i] == Contents()
      {
        var outcome := SyncUserTeams(reqs[i], times[i]);
        SyncedStaysSound(config, reqs[i], times[i], dbs[i], Contents(), outcome);
        TraceOne(config, reqs, times, dbs, outcomes, i, Contents(), outcome);
        outcomes, dbs := outcomes + [outcome], dbs + [Contents()];
      }
    }
  }

  /** Such a sync, from an empty store. */
  method ColonMergesRows(now: int) returns (store: MemoryStore)
    ensures store.teamMemberships == map["a:b:c" := NewRow("a", "b:c", now)]
  {
    store := new MemoryStore();
    var row := Membership("a:b", "c", "admin", 5.0, 0);
    assert MembershipKey("a:b", "c") == "a:b:c";
    store.CreateTeamMembership(row);
    var syncer := new UserTeamSyncer(store, Config(true, true, true, true, false, "", ""));
    ghost var was := syncer.Contents();
    assert was.rows == map["a:b:c" := row];
    var outcome := syncer.SyncUserTeams(SyncRequest("a", None, "", ["b:c"], None), now);
    ColonTakesRow(syncer.config, now, was, syncer.Contents(), outcome);
  }

  // ---------------------------------------------------------------- the loop over the list

  /** A list, the teams of it to be added, those that cannot be, and the teams that exist. */
  datatype AddPlan = AddPlan(teamIDs: seq<string>, adds: set<string>, missing: set<string>, existing: set<string>)

  ghost function MakePlan(c: Config, was: Db, userID: string, teamIDs: seq<string>): (plan: AddPlan)
    ensures plan.teamIDs == teamIDs
  {
    var adds := Adds(c, was, userID, teamIDs);
    AddPlan(teamIDs, adds, Listed(teamIDs) - TeamsOf(was.rows, userID) - adds, was.teams.Keys)
  }

  /** The teams to be added among the first `i` of the list. */
  ghost function Reached(plan: AddPlan, i: nat): set<string>
    requires i <= |plan.teamIDs|
  {
    set t | t in plan.teamIDs[..i] && t in plan.adds
  }

  lemma ReachedOne(plan: AddPlan, i: nat)
    requires i < |plan.teamIDs|
    ensures var t := plan.teamIDs[i];
      Reached(plan, i + 1) == if t in plan.adds then Reached(plan, i) + {t} else Reached(plan, i)
  {
    assert plan.teamIDs[..i + 1] == plan.teamIDs[..i] + [plan.teamIDs[i]];
  }

  lemma ReachedNext(c: Config, was: Db, userID: string, teamIDs: seq<string>, i: nat)
    requires i < |teamIDs|
    ensures var plan, t := MakePlan(c, was, userID, teamIDs), teamIDs[i];
      && (t in plan.adds <==> t !in TeamsOf(was.rows, userID) && (t in was.teams || c.autoCreateTeams))
      && (t in plan.missing <==> t !in TeamsOf(was.rows, userID) && t !in plan.adds)
      && (Reached(plan, i) <= was.teams.Keys || c.autoCreateTeams)
      && Reached(plan, i + 1) == if t in plan.adds then Reached(plan, i) + {t} else Reached(plan, i)
  {
    ReachedOne(MakePlan(c, was, userID, teamIDs), i);
  }

  ghost predicate Grown(rows: Rows, teams: map<string, Team>, was: Db, userID: string, reached: set<string>, now: int) {
    Changed(rows, was.rows, userID, reached, {}, now) && TeamsGrown(teams, was.teams, reached)
  }

  lemma GrowOne(teams: map<string, Team>, was: map<string, Team>, reached: set<string>, t: string)
    requires TeamsGrown(teams, was, reached)
    ensures TeamsGrown(if t in teams then teams else teams[t := Team(t, true)], was, reached + {t})
  {
  }

  ghost predicate Logged(plan: AddPlan, i: nat, added: seq<string>, created: seq<string>, warnings: seq<string>) {
    && i <= |plan.teamIDs|
    && added == Picked(plan.teamIDs[..i], plan.adds) && warnings == Picked(plan.teamIDs[..i], plan.missing)
    && EachOnce(created, Reached(plan, i) - plan.existing)
  }

  lemma StartOfList(plan: AddPlan, was: Db, userID: string, now: int)
    ensures Grown(was.rows, was.teams, was, userID, Reached(plan, 0), now) && Logged(plan, 0, [], [], [])
  {
    assert Reached(plan, 0) == {} && KeysOf(userID, {}) == {};
  }

  lemma EndOfList(plan: AddPlan, added: seq<string>, created: seq<string>, warnings: seq<string>)
    requires plan.adds <= Listed(plan.teamIDs) && Logged(plan, |plan.teamIDs|, added, created, warnings)
    ensures Reached(plan, |plan.teamIDs|) == plan.adds
    ensures added == Picked(plan.teamIDs, plan.adds) && warnings == Picked(plan.teamIDs, plan.missing)
    ensures EachOnce(created, plan.adds - plan.existing)
  {
    assert plan.teamIDs[..|plan.teamIDs|] == plan.teamIDs;
    assert Reached(plan, |plan.teamIDs|) == plan.adds;
  }

  lemma LogOne(plan: AddPlan, i: nat, added: seq<string>, created: seq<string>, warnings: seq<string>, isNew: bool)
    requires i < |plan.teamIDs| && Logged(plan, i, added, created, warnings)
    requires var t := plan.teamIDs[i];
      isNew <==> t in plan.adds && t !in plan.existing && t !in Reached(plan, i)
    ensures var t := plan.teamIDs[i];
      Logged(plan, i + 1, if t in plan.adds then added + [t] else added,
             if isNew then created + [t] else created, if t in plan.missing then warnings + [t] else warnings)
  {
    var t := plan.teamIDs[i];
    assert plan.teamIDs[..i + 1][..i] == plan.teamIDs[..i];
    ReachedOne(plan, i);
    if isNew {
      assert Reached(plan, i) + {t} - plan.existing == (Reached(plan, i) - plan.existing) + {t};
      NoteOne(created, Reached(plan, i) - plan.existing, t);
    } else {
      assert Reached(plan, i + 1) - plan.existing == Reached(plan, i) - plan.existing;
    }
  }
}
