/** The pure parts of the league object (src/Classes/FantasyLeague.py): building
    the teams from users, rosters and the seeding and division configuration,
    grouping them into divisions, ranking each week's scores and pairing
    opponents, and the read-outs the pages use. What the web API returns is
    passed in as plain sequences. */
module League {
  import opened Wrappers
  import opened Dict
  import opened KeySort
  import Names
  import Team

  /** A roster as the API lists it: its owner (possibly none) and its id. */
  datatype Roster = Roster(ownerId: Option<string>, rosterId: int)

  /** A user and the team name in its metadata, if it has one. */
  datatype User = User(userId: string, teamName: Option<string>)

  /** A seeding configuration entry. */
  datatype SeedEntry = SeedEntry(shortName: string, seed: int)

  /** A division configuration entry: its name and the short names of its teams. */
  datatype Division = Division(name: string, teamNames: seq<string>)

  /** The league's teams, keyed by roster id in insertion order. */
  type Teams = seq<(int, Team.Team)>

  // ---------------------------------------------------------------------------
  // Building the teams
  // ---------------------------------------------------------------------------

  /** Each roster's owner mapped to the roster id; a later roster of the same
      owner overwrites an earlier one. */
  function OwnerToRoster(rosters: seq<Roster>): (r: seq<(Option<string>, int)>)
    ensures KeysUnique(r)
    ensures forall o :: Get(r, o).None? <==> forall i :: 0 <= i < |rosters| ==> rosters[i].ownerId != o
  {
    var ps := seq(|rosters|, i requires 0 <= i < |rosters| => (rosters[i].ownerId, rosters[i].rosterId));
    assert forall i :: 0 <= i < |rosters| ==> ps[i].0 == rosters[i].ownerId;
    FromPairsUnique(ps);
    forall o ensures Get(FromPairs(ps), o).None? <==> forall i :: 0 <= i < |rosters| ==> rosters[i].ownerId != o {
      FromPairsAbsent(ps, o);
    }
    FromPairs(ps)
  }

  /** Each configured short name mapped to its seed; a later entry wins. */
  function SeedMap(seeding: seq<SeedEntry>): (r: seq<(string, int)>)
    ensures KeysUnique(r)
    ensures forall n :: Get(r, n).None? <==> forall i :: 0 <= i < |seeding| ==> seeding[i].shortName != n
  {
    var ps := seq(|seeding|, i requires 0 <= i < |seeding| => (seeding[i].shortName, seeding[i].seed));
    assert forall i :: 0 <= i < |seeding| ==> ps[i].0 == seeding[i].shortName;
    FromPairsUnique(ps);
    forall n ensures Get(FromPairs(ps), n).None? <==> forall i :: 0 <= i < |seeding| ==> seeding[i].shortName != n {
      FromPairsAbsent(ps, n);
    }
    FromPairs(ps)
  }

  /** Division dn lists the short name n. */
  ghost predicate Lists(divisions: seq<Division>, n: string, dn: string)
  {
    exists i :: 0 <= i < |divisions| && divisions[i].name == dn && n in divisions[i].teamNames
  }

  /** The (team short name, division name) pairs of the configuration, in order. */
  function DivisionPairs(divisions: seq<Division>): (r: seq<(string, string)>)
    ensures forall p :: p in r <==> Lists(divisions, p.0, p.1)
  {
    if |divisions| == 0 then []
    else
      var d := divisions[0];
      var here := seq(|d.teamNames|, j requires 0 <= j < |d.teamNames| => (d.teamNames[j], d.name));
      var rest := DivisionPairs(divisions[1..]);
      forall p ensures p in here + rest <==> Lists(divisions, p.0, p.1) {
        if p in here {
          var j :| 0 <= j < |here| && here[j] == p;
          assert p.0 == d.teamNames[j];
        } else if p in rest {
          var i :| 0 <= i < |divisions[1..]| && divisions[1..][i].name == p.1 && p.0 in divisions[1..][i].teamNames;
          assert divisions[i + 1] == divisions[1..][i];
        }
        if Lists(divisions, p.0, p.1) {
          var i :| 0 <= i < |divisions| && divisions[i].name == p.1 && p.0 in divisions[i].teamNames;
          if i == 0 {
            var j :| 0 <= j < |d.teamNames| && d.teamNames[j] == p.0;
            assert here[j] == p;
          } else {
            assert divisions[1..][i - 1] == divisions[i];
            assert Lists(divisions[1..], p.0, p.1);
          }
        }
      }
      here + rest
  }

  /** Each configured short name mapped to the name of a division listing it;
      a name listed twice keeps the later division. */
  function DivisionByTeam(divisions: seq<Division>): (r: seq<(string, string)>)
    ensures KeysUnique(r)
    ensures forall n :: Get(r, n).None? <==> forall dn :: !Lists(divisions, n, dn)
    ensures forall n :: Get(r, n).Some? ==> Lists(divisions, n, Get(r, n).value)
  {
    var ps := DivisionPairs(divisions);
    var r := FromPairs(ps);
    FromPairsUnique(ps);
    FromPairsMembers(ps);
    forall n ensures Get(r, n).None? <==> forall dn :: !Lists(divisions, n, dn) {
      FromPairsAbsent(ps, n);
      if Get(r, n).Some? {
        GetMember(r, n);
        assert (n, Get(r, n).value) in ps;
      } else {
        forall dn ensures !Lists(divisions, n, dn) {
          assert (n, dn) !in ps;
        }
      }
    }
    forall n | Get(r, n).Some? ensures Lists(divisions, n, Get(r, n).value) {
      GetMember(r, n);
      assert (n, Get(r, n).value) in ps;
    }
    r
  }

  /** The roster id the rosters give the user's id, if any. */
  function RosterOf(owners: seq<(Option<string>, int)>, u: User): Option<int>
  {
    Get(owners, Some(u.userId))
  }

  /** `if roster_id:` holds: a roster id was found and it is not 0. */
  predicate HasTeam(owners: seq<(Option<string>, int)>, u: User)
  {
    RosterOf(owners, u).Some? && RosterOf(owners, u).value != 0
  }

  /** The user names a team on roster id: it has a truthy roster id and a team name. */
  predicate Claims(owners: seq<(Option<string>, int)>, u: User, id: int)
  {
    HasTeam(owners, u) && u.teamName.Some? && RosterOf(owners, u).value == id
  }

  /** A user's team can be built: it has a team name (a None name raises when it
      is split) of at least two words (the constructor takes the second word). */
  predicate Buildable(u: User)
  {
    u.teamName.Some? && |Names.Split(u.teamName.value)| >= 2
  }

  /** Every user with a truthy roster id has a team that can be built; otherwise
      the user loop raises. */
  ghost predicate AllNamed(users: seq<User>, owners: seq<(Option<string>, int)>)
  {
    forall i :: 0 <= i < |users| && HasTeam(owners, users[i]) ==> Buildable(users[i])
  }

  /** The team a roster gets from its user's team name: the division and the
      seed are looked up under the short name. */
  function TeamOf(name: string, id: int, seeds: seq<(string, int)>, divisions: seq<(string, string)>): (t: Team.Team)
    ensures t.name == name && t.rosterId == id && t.shortName == Names.ShortName(name)
    ensures t.division == Get(divisions, t.shortName) && t.seed == Get(seeds, t.shortName)
  {
    var short := Names.ShortName(name);
    Team.NewTeam(name, id, Get(divisions, short), Get(seeds, short))
  }

  /** `Team(team_name, roster_id, division, seed)` as the user loop calls it: the
      seed and division are looked up under the short name the loop computes,
      and the constructor as written raises (None) on a name of one word. Where
      it succeeds it builds the team `TeamOf` describes. */
  function BuildTeam(name: string, id: int, seeds: seq<(string, int)>, divisions: seq<(string, string)>): (r: Option<Team.Team>)
    ensures r.None? <==> |Names.Split(name)| < 2
    ensures r.Some? ==> r.value == TeamOf(name, id, seeds, divisions)
  {
    var short := Names.ShortName(name);
    Team.NewTeamAgrees(name, id, Get(divisions, short), Get(seeds, short));
    Team.NewTeamAsWritten(name, id, Get(divisions, short), Get(seeds, short))
  }

  /** The user loop: each user with a truthy roster id assigns its team under
      that id; a user without a team name, or whose team name is one word,
      raises (None). */
  function AddUsers(teams: Teams, users: seq<User>, owners: seq<(Option<string>, int)>,
                    seeds: seq<(string, int)>, divisions: seq<(string, string)>): Option<Teams>
    decreases |users|
  {
    if |users| == 0 then Some(teams)
    else
      var u := users[0];
      if !HasTeam(owners, u) then AddUsers(teams, users[1..], owners, seeds, divisions)
      else if u.teamName.None? then None
      else
        var id := RosterOf(owners, u).value;
        match BuildTeam(u.teamName.value, id, seeds, divisions)
        case None => None
        case Some(t) => AddUsers(Put(teams, id, t), users[1..], owners, seeds, divisions)
  }

  /** The assignment the user loop makes for one user: none, or its roster id and team. */
  function Assignment(u: User, owners: seq<(Option<string>, int)>,
                      seeds: seq<(string, int)>, divisions: seq<(string, string)>): seq<(int, Team.Team)>
  {
    if HasTeam(owners, u) && u.teamName.Some?
    then [(RosterOf(owners, u).value, TeamOf(u.teamName.value, RosterOf(owners, u).value, seeds, divisions))]
    else []
  }

  /** The (roster id, team) assignments the user loop makes, in order. */
  function TeamPairs(users: seq<User>, owners: seq<(Option<string>, int)>,
                     seeds: seq<(string, int)>, divisions: seq<(string, string)>): seq<(int, Team.Team)>
    decreases |users|
  {
    if |users| == 0 then []
    else Assignment(users[0], owners, seeds, divisions) + TeamPairs(users[1..], owners, seeds, divisions)
  }

  lemma {:induction false} TeamPairsAppend(a: seq<User>, b: seq<User>, owners: seq<(Option<string>, int)>,
                                           seeds: seq<(string, int)>, divisions: seq<(string, string)>)
    ensures TeamPairs(a + b, owners, seeds, divisions) == TeamPairs(a, owners, seeds, divisions) + TeamPairs(b, owners, seeds, divisions)
    decreases |a|
  {
    if |a| == 0 {
      assert a + b == b;
    } else {
      var here := Assignment(a[0], owners, seeds, divisions);
      assert (a + b)[0] == a[0];
      assert (a + b)[1..] == a[1..] + b;
      assert TeamPairs(a + b, owners, seeds, divisions) == here + TeamPairs(a[1..] + b, owners, seeds, divisions);
      TeamPairsAppend(a[1..], b, owners, seeds, divisions);
      assert TeamPairs(a, owners, seeds, divisions) == here + TeamPairs(a[1..], owners, seeds, divisions);
      SeqAssoc(here, TeamPairs(a[1..], owners, seeds, divisions), TeamPairs(b, owners, seeds, divisions));
    }
  }

  lemma {:induction false} SeqAssoc<T>(a: seq<T>, b: seq<T>, c: seq<T>)
    ensures a + (b + c) == (a + b) + c
  {
  }

  lemma {:induction false} AllNamedCons(users: seq<User>, owners: seq<(Option<string>, int)>)
    requires |users| > 0
    ensures AllNamed(users, owners) <==>
            (HasTeam(owners, users[0]) ==> Buildable(users[0])) && AllNamed(users[1..], owners)
  {
    assert forall i :: 1 <= i < |users| ==> users[i] == users[1..][i - 1];
  }

  /** The user loop builds the dict the assignments fill, unless a user with a
      truthy roster id has no team name. */
  lemma {:induction false} AddUsersFills(ps: seq<(int, Team.Team)>, users: seq<User>, owners: seq<(Option<string>, int)>,
                                         seeds: seq<(string, int)>, divisions: seq<(string, string)>)
    ensures AddUsers(FromPairs(ps), users, owners, seeds, divisions) ==
            if AllNamed(users, owners) then Some(FromPairs(ps + TeamPairs(users, owners, seeds, divisions))) else None
    decreases |users|
  {
    if |users| == 0 {
      assert ps + [] == ps;
    } else {
      var u := users[0];
      var rest := users[1..];
      var tail := TeamPairs(rest, owners, seeds, divisions);
      AllNamedCons(users, owners);
      if !HasTeam(owners, u) {
        AddUsersFills(ps, rest, owners, seeds, divisions);
        assert TeamPairs(users, owners, seeds, divisions) == [] + tail;
        assert [] + tail == tail;
      } else if Buildable(u) {
        var id := RosterOf(owners, u).value;
        var p := (id, TeamOf(u.teamName.value, id, seeds, divisions));
        assert BuildTeam(u.teamName.value, id, seeds, divisions) == Some(p.1);
        FromPairsSnoc(ps, p);
        AddUsersFills(ps + [p], rest, owners, seeds, divisions);
        assert TeamPairs(users, owners, seeds, divisions) == [p] + tail;
        SeqAssoc(ps, [p], tail);
      }
    }
  }

  /** The teams of the league, keyed by roster id: None when a user with a
      truthy roster id has no team name. */
  function RetrieveTeams(users: seq<User>, rosters: seq<Roster>, seeding: seq<SeedEntry>, divisions: seq<Division>): (r: Option<Teams>)
    ensures r.None? <==> !AllNamed(users, OwnerToRoster(rosters))
    ensures r.Some? ==> r.value == FromPairs(TeamPairs(users, OwnerToRoster(rosters), SeedMap(seeding), DivisionByTeam(divisions)))
  {
    UserLoop(users, OwnerToRoster(rosters), SeedMap(seeding), DivisionByTeam(divisions));
    AddUsers([], users, OwnerToRoster(rosters), SeedMap(seeding), DivisionByTeam(divisions))
  }

  /** A user whose team name is one word makes the retrieval raise, as the
      constructor does on it. */
  lemma {:induction false} OneWordTeamRaises()
    ensures RetrieveTeams([User("u1", Some("Bears"))], [Roster(Some("u1"), 1)], [], []).None?
  {
    var users := [User("u1", Some("Bears"))];
    var rosters := [Roster(Some("u1"), 1)];
    var owners := OwnerToRoster(rosters);
    var ps := [(Some("u1"), 1)];
    assert owners == FromPairs(ps);
    FromPairsLastWins(ps, 0);
    assert HasTeam(owners, users[0]);
    Team.OneWordName();
    assert !Buildable(users[0]);
  }

  /** The user loop run from an empty dict. */
  lemma {:induction false} UserLoop(users: seq<User>, owners: seq<(Option<string>, int)>,
                                    seeds: seq<(string, int)>, divisions: seq<(string, string)>)
    ensures AddUsers([], users, owners, seeds, divisions) ==
            if AllNamed(users, owners) then Some(FromPairs(TeamPairs(users, owners, seeds, divisions))) else None
  {
    var empty: seq<(int, Team.Team)> := [];
    var tp := TeamPairs(users, owners, seeds, divisions);
    AddUsersFills(empty, users, owners, seeds, divisions);
    EmptyStart(empty, tp, AddUsers(FromPairs(empty), users, owners, seeds, divisions), AllNamed(users, owners));
    assert FromPairs(empty) == [];
  }

  /** Filling from no pairs fills with the assignments alone. */
  lemma EmptyStart(empty: seq<(int, Team.Team)>, tp: seq<(int, Team.Team)>, filled: Option<Teams>, named: bool)
    requires empty == []
    requires filled == (if named then Some(FromPairs(empty + tp)) else None)
    ensures filled == if named then Some(FromPairs(tp)) else None
  {
    assert empty + tp == tp;
  }

  /** A fresh team as the user loop builds it under roster id `id`. */
  ghost predicate FreshTeam(id: int, t: Team.Team, seeds: seq<(string, int)>, divisions: seq<(string, string)>)
  {
    && id != 0 && t.rosterId == id
    && t.shortName == Names.ShortName(t.name)
    && t.division == Get(divisions, t.shortName) && t.seed == Get(seeds, t.shortName)
    && Team.Consistent(t) && t.wins == 0 && t.losses == 0 && t.weeks == []
  }

  /** The team under roster id `id` is the one TeamOf builds from its name. */
  predicate Built(id: int, t: Team.Team, seeds: seq<(string, int)>, divisions: seq<(string, string)>)
  {
    id != 0 && t == TeamOf(t.name, id, seeds, divisions)
  }

  lemma {:induction false} BuiltIsFresh(id: int, t: Team.Team, seeds: seq<(string, int)>, divisions: seq<(string, string)>)
    requires Built(id, t, seeds, divisions)
    ensures FreshTeam(id, t, seeds, divisions)
  {
    var short := Names.ShortName(t.name);
    Team.NewTeamConsistent(t.name, id, Get(divisions, short), Get(seeds, short));
  }

  /** Every assignment of tp puts under its roster id the team TeamOf builds. */
  ghost predicate AllBuilt(tp: seq<(int, Team.Team)>, seeds: seq<(string, int)>, divisions: seq<(string, string)>)
  {
    forall j :: 0 <= j < |tp| ==> Built(tp[j].0, tp[j].1, seeds, divisions)
  }

  lemma {:induction false} AllBuiltAppend(a: seq<(int, Team.Team)>, b: seq<(int, Team.Team)>,
                                          seeds: seq<(string, int)>, divisions: seq<(string, string)>)
    requires AllBuilt(a, seeds, divisions) && AllBuilt(b, seeds, divisions)
    ensures AllBuilt(a + b, seeds, divisions)
  {
    forall j | 0 <= j < |a + b| ensures Built((a + b)[j].0, (a + b)[j].1, seeds, divisions) {
      if j < |a| {
        assert (a + b)[j] == a[j];
      } else {
        assert (a + b)[j] == b[j - |a|];
      }
    }
  }

  lemma {:induction false} TeamPairsBuilt(users: seq<User>, owners: seq<(Option<string>, int)>,
                                          seeds: seq<(string, int)>, divisions: seq<(string, string)>)
    ensures AllBuilt(TeamPairs(users, owners, seeds, divisions), seeds, divisions)
    decreases |users|
  {
    if |users| > 0 {
      var here := Assignment(users[0], owners, seeds, divisions);
      var tail := TeamPairs(users[1..], owners, seeds, divisions);
      assert TeamPairs(users, owners, seeds, divisions) == here + tail;
      TeamPairsBuilt(users[1..], owners, seeds, divisions);
      AssignmentBuilt(users[0], owners, seeds, divisions);
      AllBuiltAppend(here, tail, seeds, divisions);
    }
  }

  lemma {:induction false} AssignmentBuilt(u: User, owners: seq<(Option<string>, int)>,
                                           seeds: seq<(string, int)>, divisions: seq<(string, string)>)
    ensures AllBuilt(Assignment(u, owners, seeds, divisions), seeds, divisions)
  {
  }

  /** No assignment is made under roster id `id`. */
  ghost predicate Keyless(tp: seq<(int, Team.Team)>, id: int)
  {
    forall j :: 0 <= j < |tp| ==> tp[j].0 != id
  }

  /** No user claims roster id `id`. */
  ghost predicate Unclaimed(users: seq<User>, owners: seq<(Option<string>, int)>, id: int)
  {
    forall i :: 0 <= i < |users| ==> !Claims(owners, users[i], id)
  }

  lemma {:induction false} KeylessAppend(a: seq<(int, Team.Team)>, b: seq<(int, Team.Team)>, id: int)
    ensures Keyless(a + b, id) <==> Keyless(a, id) && Keyless(b, id)
  {
    var ab := a + b;
    if Keyless(a, id) && Keyless(b, id) {
      forall j | 0 <= j < |ab| ensures ab[j].0 != id {
        if j >= |a| {
          assert ab[j] == b[j - |a|];
        }
      }
    }
    if Keyless(ab, id) {
      forall j | 0 <= j < |b| ensures b[j].0 != id {
        assert b[j] == ab[|a| + j];
      }
      forall j | 0 <= j < |a| ensures a[j].0 != id {
        assert a[j] == ab[j];
      }
    }
  }

  /** Roster id `id` is assigned exactly when some user claims it. */
  lemma {:induction false} TeamPairsKeys(users: seq<User>, owners: seq<(Option<string>, int)>,
                                         seeds: seq<(string, int)>, divisions: seq<(string, string)>, id: int)
    ensures Keyless(TeamPairs(users, owners, seeds, divisions), id) <==> Unclaimed(users, owners, id)
    decreases |users|
  {
    if |users| > 0 {
      var here := Assignment(users[0], owners, seeds, divisions);
      var tail := TeamPairs(users[1..], owners, seeds, divisions);
      TeamPairsKeys(users[1..], owners, seeds, divisions, id);
      KeylessAppend(here, tail, id);
      AssignmentKeyless(users[0], owners, seeds, divisions, id);
      UnclaimedCons(users, owners, id);
    }
  }

  lemma {:induction false} AssignmentKeyless(u: User, owners: seq<(Option<string>, int)>,
                                             seeds: seq<(string, int)>, divisions: seq<(string, string)>, id: int)
    ensures Keyless(Assignment(u, owners, seeds, divisions), id) <==> !Claims(owners, u, id)
  {
    var here := Assignment(u, owners, seeds, divisions);
    if |here| == 1 {
      assert here[0].0 == RosterOf(owners, u).value;
    }
  }

  lemma {:induction false} UnclaimedCons(users: seq<User>, owners: seq<(Option<string>, int)>, id: int)
    requires |users| > 0
    ensures Unclaimed(users, owners, id) <==> !Claims(owners, users[0], id) && Unclaimed(users[1..], owners, id)
  {
    assert forall i :: 1 <= i < |users| ==> users[i] == users[1..][i - 1];
  }

  /** The teams the league builds: each key once, every key a truthy roster
      id that some user claims and every claimed id a key, and each team a
      fresh team whose short name, division and seed come from its name. */
  lemma {:induction false} RetrievedTeams(users: seq<User>, rosters: seq<Roster>, seeding: seq<SeedEntry>, divisions: seq<Division>)
    requires RetrieveTeams(users, rosters, seeding, divisions).Some?
    ensures var teams := RetrieveTeams(users, rosters, seeding, divisions).value;
            && KeysUnique(teams)
            && (forall j :: 0 <= j < |teams| ==> FreshTeam(teams[j].0, teams[j].1, SeedMap(seeding), DivisionByTeam(divisions)))
            && (forall id :: Get(teams, id).Some? <==> exists i :: 0 <= i < |users| && Claims(OwnerToRoster(rosters), users[i], id))
  {
    var owners, seeds, divs := OwnerToRoster(rosters), SeedMap(seeding), DivisionByTeam(divisions);
    var tp := TeamPairs(users, owners, seeds, divs);
    assert RetrieveTeams(users, rosters, seeding, divisions).value == FromPairs(tp);
    TeamsBuilt(users, owners, seeds, divs);
  }

  /** The dict the user loop fills: unique keys, fresh teams, claimed ids as keys. */
  lemma {:induction false} TeamsBuilt(users: seq<User>, owners: seq<(Option<string>, int)>,
                                      seeds: seq<(string, int)>, divisions: seq<(string, string)>)
    ensures var teams := FromPairs(TeamPairs(users, owners, seeds, divisions));
            && KeysUnique(teams)
            && (forall j :: 0 <= j < |teams| ==> FreshTeam(teams[j].0, teams[j].1, seeds, divisions))
            && (forall id :: Get(teams, id).Some? <==> exists i :: 0 <= i < |users| && Claims(owners, users[i], id))
  {
    var tp := TeamPairs(users, owners, seeds, divisions);
    FromPairsUnique(tp);
    TeamPairsBuilt(users, owners, seeds, divisions);
    FreshTeams(tp, seeds, divisions);
    TeamsKeys(users, owners, seeds, divisions);
  }

  /** Filling a dict with built assignments gives fresh teams. */
  lemma {:induction false} FreshTeams(tp: seq<(int, Team.Team)>, seeds: seq<(string, int)>, divisions: seq<(string, string)>)
    requires AllBuilt(tp, seeds, divisions)
    ensures forall j :: 0 <= j < |FromPairs(tp)| ==> FreshTeam(FromPairs(tp)[j].0, FromPairs(tp)[j].1, seeds, divisions)
  {
    var teams := FromPairs(tp);
    FromPairsMembers(tp);
    forall j | 0 <= j < |teams| ensures FreshTeam(teams[j].0, teams[j].1, seeds, divisions) {
      var k :| 0 <= k < |tp| && tp[k] == teams[j];
      assert Built(tp[k].0, tp[k].1, seeds, divisions);
      BuiltIsFresh(teams[j].0, teams[j].1, seeds, divisions);
    }
  }

  /** The keys of the filled dict are exactly the claimed roster ids. */
  lemma {:induction false} TeamsKeys(users: seq<User>, owners: seq<(Option<string>, int)>,
                                     seeds: seq<(string, int)>, divisions: seq<(string, string)>)
    ensures var teams := FromPairs(TeamPairs(users, owners, seeds, divisions));
            forall id :: Get(teams, id).Some? <==> exists i :: 0 <= i < |users| && Claims(owners, users[i], id)
  {
    var tp := TeamPairs(users, owners, seeds, divisions);
    forall id ensures Get(FromPairs(tp), id).Some? <==> exists i :: 0 <= i < |users| && Claims(owners, users[i], id) {
      FromPairsAbsent(tp, id);
      TeamPairsKeys(users, owners, seeds, divisions, id);
    }
  }

  /** The assignments split around user i. */
  lemma {:induction false} TeamPairsAround(users: seq<User>, i: nat, owners: seq<(Option<string>, int)>,
                                           seeds: seq<(string, int)>, divisions: seq<(string, string)>)
    requires i < |users|
    ensures TeamPairs(users, owners, seeds, divisions) ==
            TeamPairs(users[..i], owners, seeds, divisions)
            + (Assignment(users[i], owners, seeds, divisions) + TeamPairs(users[i + 1..], owners, seeds, divisions))
  {
    var before, rest := users[..i], users[i..];
    assert users == before + rest;
    assert rest[0] == users[i] && rest[1..] == users[i + 1..];
    TeamPairsAppend(before, rest, owners, seeds, divisions);
  }

  /** The last assignment under a claimed id is that of the last claimant. */
  lemma {:induction false} LastClaimWins(users: seq<User>, owners: seq<(Option<string>, int)>,
                                         seeds: seq<(string, int)>, divisions: seq<(string, string)>, i: nat, id: int)
    requires i < |users| && Claims(owners, users[i], id)
    requires Unclaimed(users[i + 1..], owners, id)
    ensures Get(FromPairs(TeamPairs(users, owners, seeds, divisions)), id) ==
            Some(TeamOf(users[i].teamName.value, id, seeds, divisions))
  {
    var p := (id, TeamOf(users[i].teamName.value, id, seeds, divisions));
    assert Assignment(users[i], owners, seeds, divisions) == [p];
    TeamPairsAround(users, i, owners, seeds, divisions);
    TeamPairsKeys(users[i + 1..], owners, seeds, divisions, id);
    FromPairsLastOf(TeamPairs(users[..i], owners, seeds, divisions), p, TeamPairs(users[i + 1..], owners, seeds, divisions));
  }

  /** The last user to claim a roster id decides its team. */
  lemma {:induction false} LastUserWins(users: seq<User>, rosters: seq<Roster>, seeding: seq<SeedEntry>, divisions: seq<Division>,
                                        i: nat, id: int)
    requires RetrieveTeams(users, rosters, seeding, divisions).Some?
    requires i < |users| && Claims(OwnerToRoster(rosters), users[i], id)
    requires forall j :: i < j < |users| ==> !Claims(OwnerToRoster(rosters), users[j], id)
    ensures Get(RetrieveTeams(users, rosters, seeding, divisions).value, id) ==
            Some(TeamOf(users[i].teamName.value, id, SeedMap(seeding), DivisionByTeam(divisions)))
  {
    var owners := OwnerToRoster(rosters);
    var after := users[i + 1..];
    assert Unclaimed(after, owners, id) by {
      assert forall j :: 0 <= j < |after| ==> after[j] == users[i + 1 + j];
    }
    LastClaimWins(users, owners, SeedMap(seeding), DivisionByTeam(divisions), i, id);
  }

  // ---------------------------------------------------------------------------
  // The division map
  // ---------------------------------------------------------------------------

  /** Some team of division dn has roster id x. */
  ghost predicate HasMember(teams: Teams, dn: string, x: int)
  {
    exists j :: 0 <= j < |teams| && teams[j].1.division == Some(dn) && teams[j].1.rosterId == x
  }

  /** The roster ids of the teams whose division is dn, in team order. */
  function RosterIdsIn(teams: Teams, dn: string): (r: seq<int>)
    ensures forall x :: x in r <==> HasMember(teams, dn, x)
    decreases |teams|
  {
    if |teams| == 0 then []
    else
      var here := if teams[0].1.division == Some(dn) then [teams[0].1.rosterId] else [];
      var rest := RosterIdsIn(teams[1..], dn);
      forall x ensures x in here + rest <==> HasMember(teams, dn, x) {
        if x in rest {
          var j :| 0 <= j < |teams[1..]| && teams[1..][j].1.division == Some(dn) && teams[1..][j].1.rosterId == x;
          assert teams[j + 1] == teams[1..][j];
        }
        if HasMember(teams, dn, x) {
          var j :| 0 <= j < |teams| && teams[j].1.division == Some(dn) && teams[j].1.rosterId == x;
          if j > 0 {
            assert teams[1..][j - 1] == teams[j];
            assert HasMember(teams[1..], dn, x);
          }
        }
      }
      here + rest
  }

  /** Each configured division name mapped to the roster ids of its teams. A
      name configured twice is emptied and refilled with the same teams. */
  function DivisionMap(divisions: seq<Division>, teams: Teams): (r: seq<(string, seq<int>)>)
    ensures KeysUnique(r)
    ensures forall dn :: Get(r, dn).None? <==> forall i :: 0 <= i < |divisions| ==> divisions[i].name != dn
    ensures forall dn :: Get(r, dn).Some? ==> Get(r, dn).value == RosterIdsIn(teams, dn)
  {
    var ps := seq(|divisions|, i requires 0 <= i < |divisions| => (divisions[i].name, RosterIdsIn(teams, divisions[i].name)));
    var r := FromPairs(ps);
    assert forall i :: 0 <= i < |divisions| ==> ps[i].0 == divisions[i].name;
    FromPairsUnique(ps);
    FromPairsMembers(ps);
    forall dn ensures Get(r, dn).None? <==> forall i :: 0 <= i < |divisions| ==> divisions[i].name != dn {
      FromPairsAbsent(ps, dn);
    }
    forall dn | Get(r, dn).Some? ensures Get(r, dn).value == RosterIdsIn(teams, dn) {
      GetMember(r, dn);
      var i :| 0 <= i < |ps| && ps[i] == (dn, Get(r, dn).value);
    }
    r
  }

  /** In a dict whose teams carry their own key as roster id, division dn lists
      exactly the keys of the teams whose division is dn. */
  lemma {:induction false} RosterIdsOfKeyed(teams: Teams, dn: string, x: int)
    requires KeysUnique(teams)
    requires forall j :: 0 <= j < |teams| ==> teams[j].1.rosterId == teams[j].0
    ensures x in RosterIdsIn(teams, dn) <==> Get(teams, x).Some? && Get(teams, x).value.division == Some(dn)
  {
    if HasMember(teams, dn, x) {
      var j :| 0 <= j < |teams| && teams[j].1.division == Some(dn) && teams[j].1.rosterId == x;
      GetOfUnique(teams, j);
    }
    if Get(teams, x).Some? && Get(teams, x).value.division == Some(dn) {
      GetMember(teams, x);
      var j :| 0 <= j < |teams| && teams[j] == (x, Get(teams, x).value);
      assert HasMember(teams, dn, x);
    }
  }

  /** For the retrieved teams, `division_map[d]` holds exactly the roster ids
      of the teams whose division is d, for every configured division d. */
  lemma {:induction false} DivisionMapExact(users: seq<User>, rosters: seq<Roster>, seeding: seq<SeedEntry>,
                                            divisions: seq<Division>, dn: string, x: int)
    requires RetrieveTeams(users, rosters, seeding, divisions).Some?
    requires exists i :: 0 <= i < |divisions| && divisions[i].name == dn
    ensures Get(DivisionMap(divisions, RetrieveTeams(users, rosters, seeding, divisions).value), dn).Some?
    ensures x in Get(DivisionMap(divisions, RetrieveTeams(users, rosters, seeding, divisions).value), dn).value <==>
            Get(RetrieveTeams(users, rosters, seeding, divisions).value, x).Some? &&
            Get(RetrieveTeams(users, rosters, seeding, divisions).value, x).value.division == Some(dn)
  {
    var teams := RetrieveTeams(users, rosters, seeding, divisions).value;
    RetrievedTeams(users, rosters, seeding, divisions);
    RosterIdsOfKeyed(teams, dn, x);
  }

  // ---------------------------------------------------------------------------
  // Ranking a week and pairing opponents
  // ---------------------------------------------------------------------------

  /** One roster's line of a week's matchups: its points and its matchup id
      (null for a roster without a matchup). */
  datatype Performance = Performance(rosterId: int, points: real, matchupId: Option<int>)

  /** A performance with the rank it gets in its week. */
  datatype Ranked = Ranked(perf: Performance, rank: int)

  /** The sort key of the descending sort by points. */
  function NegPoints(p: Performance): real
  {
    -p.points
  }

  /** The performances of ranked entries, in order. */
  function Unranked(r: seq<Ranked>): (ps: seq<Performance>)
    ensures |ps| == |r| && forall i :: 0 <= i < |r| ==> ps[i] == r[i].perf
  {
    seq(|r|, i requires 0 <= i < |r| => r[i].perf)
  }

  /** Sorts the week's performances by points, highest first (stably), and
      numbers them from 1: the ranks are 1..n, each once, and more points
      never get a larger rank. */
  function RankWeek(perfs: seq<Performance>): (r: seq<Ranked>)
    ensures |r| == |perfs| && multiset(Unranked(r)) == multiset(perfs)
    ensures forall i :: 0 <= i < |r| ==> r[i].rank == i + 1
    ensures forall i, j :: 0 <= i < j < |r| ==> r[i].perf.points >= r[j].perf.points
    ensures forall i, j :: 0 <= i < |r| && 0 <= j < |r| && r[i].perf.points > r[j].perf.points ==> r[i].rank < r[j].rank
  {
    var sorted := Sort(perfs, NegPoints);
    var r := seq(|sorted|, i requires 0 <= i < |sorted| => Ranked(sorted[i], i + 1));
    NumberedInOrder(sorted, r);
    r
  }

  /** Ties keep their order: the performances that scored exactly pts come out
      of the ranking in the order they went in. */
  lemma {:induction false} RankWeekStable(perfs: seq<Performance>, pts: real)
    ensures WithKey(Unranked(RankWeek(perfs)), NegPoints, -pts) == WithKey(perfs, NegPoints, -pts)
  {
    var u := Unranked(RankWeek(perfs));
    RankWeekIsSort(perfs);
    SortStableAt(perfs, u, NegPoints, -pts);
  }

  lemma RankWeekIsSort(perfs: seq<Performance>)
    ensures Unranked(RankWeek(perfs)) == Sort(perfs, NegPoints)
  {
    var sorted := Sort(perfs, NegPoints);
    NumberedInOrder(sorted, RankWeek(perfs));
  }

  /** Numbering performances sorted highest first from 1 ranks more points ahead. */
  lemma {:induction false} NumberedInOrder(sorted: seq<Performance>, r: seq<Ranked>)
    requires Sorted(sorted, NegPoints)
    requires |r| == |sorted| && forall i :: 0 <= i < |r| ==> r[i] == Ranked(sorted[i], i + 1)
    ensures Unranked(r) == sorted
    ensures forall i, j :: 0 <= i < j < |r| ==> r[i].perf.points >= r[j].perf.points
    ensures forall i, j :: 0 <= i < |r| && 0 <= j < |r| && r[i].perf.points > r[j].perf.points ==> r[i].rank < r[j].rank
  {
    assert Unranked(r) == sorted;
    forall i, j | 0 <= i < j < |r| ensures r[i].perf.points >= r[j].perf.points {
      assert NegPoints(sorted[i]) <= NegPoints(sorted[j]);
    }
  }

  /** The performances of matchup m, in ranked order. */
  function Group(ranked: seq<Ranked>, m: Option<int>): (g: seq<Ranked>)
    ensures forall x :: x in g <==> x in ranked && x.perf.matchupId == m
  {
    if |ranked| == 0 then []
    else
      var init := ranked[..|ranked| - 1];
      var last := ranked[|ranked| - 1];
      assert ranked == init + [last];
      Group(init, m) + (if last.perf.matchupId == m then [last] else [])
  }

  /** `matchup_map`: each matchup id mapped to the list its performances are
      appended to, in ranked order. */
  function MatchupMap(ranked: seq<Ranked>): seq<(Option<int>, seq<Ranked>)>
  {
    if |ranked| == 0 then []
    else
      var d := MatchupMap(ranked[..|ranked| - 1]);
      var m := ranked[|ranked| - 1].perf.matchupId;
      Put(d, m, Get(d, m).GetOr([]) + [ranked[|ranked| - 1]])
  }

  /** The matchup map lists under m exactly the group of m, and has no entry
      for a matchup id no performance carries. */
  lemma {:induction false} MatchupMapGroups(ranked: seq<Ranked>, m: Option<int>)
    ensures Get(MatchupMap(ranked), m) == if Group(ranked, m) == [] then None else Some(Group(ranked, m))
  {
    if |ranked| > 0 {
      var init := ranked[..|ranked| - 1];
      var last := ranked[|ranked| - 1];
      var d := MatchupMap(init);
      var v := Get(d, last.perf.matchupId).GetOr([]) + [last];
      assert MatchupMap(ranked) == Put(d, last.perf.matchupId, v);
      MatchupMapGroups(init, m);
      if last.perf.matchupId != m {
        PutOther(d, last.perf.matchupId, v, m);
        assert Group(ranked, m) == Group(init, m) + [] == Group(init, m);
        assert Get(MatchupMap(ranked), m) == Get(d, m);
      } else {
        assert v == Group(init, m) + [last];
        assert Group(ranked, m) == Group(init, m) + [last];
      }
    }
  }

  /** The position of the first entry of g from another roster than id. */
  function FirstOther(g: seq<Ranked>, id: int): (r: Option<nat>)
    ensures r.Some? ==> r.value < |g| && g[r.value].perf.rosterId != id
    ensures r.Some? ==> forall j :: 0 <= j < r.value ==> g[j].perf.rosterId == id
    ensures r.None? <==> forall j :: 0 <= j < |g| ==> g[j].perf.rosterId == id
  {
    if |g| == 0 then None
    else if g[0].perf.rosterId != id then Some(0)
    else
      match FirstOther(g[1..], id)
      case None => None
      case Some(k) => Some(k + 1)
  }

  /** The opponent of x: the first other roster in x's matchup list. */
  function Opponent(mm: seq<(Option<int>, seq<Ranked>)>, x: Ranked): Option<Ranked>
  {
    var g := Get(mm, x.perf.matchupId).GetOr([]);
    match FirstOther(g, x.perf.rosterId)
    case None => None
    case Some(k) => Some(g[k])
  }

  /** The opponent is a performance of the same matchup from another roster,
      the first such in ranked order; there is none exactly when every
      performance of the matchup is the roster's own. */
  lemma {:induction false} OpponentOf(ranked: seq<Ranked>, x: Ranked)
    ensures var o := Opponent(MatchupMap(ranked), x);
            var g := Group(ranked, x.perf.matchupId);
            && (o.None? <==> forall y :: y in ranked && y.perf.matchupId == x.perf.matchupId ==> y.perf.rosterId == x.perf.rosterId)
            && (o.Some? ==> o.value in ranked && o.value.perf.matchupId == x.perf.matchupId && o.value.perf.rosterId != x.perf.rosterId)
            && (o.Some? ==> exists k :: 0 <= k < |g| && g[k] == o.value && forall j :: 0 <= j < k ==> g[j].perf.rosterId == x.perf.rosterId)
  {
    var g := Group(ranked, x.perf.matchupId);
    MatchupMapGroups(ranked, x.perf.matchupId);
    assert Get(MatchupMap(ranked), x.perf.matchupId).GetOr([]) == g;
    var f := FirstOther(g, x.perf.rosterId);
    if f.None? {
      forall y | y in ranked && y.perf.matchupId == x.perf.matchupId ensures y.perf.rosterId == x.perf.rosterId {
        var j :| 0 <= j < |g| && g[j] == y;
      }
    } else {
      assert g[f.value] in g;
    }
  }

  // ---------------------------------------------------------------------------
  // Recording the weeks
  // ---------------------------------------------------------------------------

  /** What roster x records for the week: its points and rank against its
      opponent's. Without an opponent its points are compared with None,
      which raises: no performance. */
  function Outcome(week: int, mm: seq<(Option<int>, seq<Ranked>)>, x: Ranked): (r: (int, Option<Team.WeekPerformance>))
    ensures r.0 == x.perf.rosterId
    ensures r.1.None? <==> Opponent(mm, x).None?
    ensures r.1.Some? ==> r.1.value.week == week && r.1.value.points == x.perf.points && r.1.value.rank == x.rank
    ensures r.1.Some? ==> r.1.value.adversaryPoints == Opponent(mm, x).value.perf.points
                          && r.1.value.adversaryRank == Some(Opponent(mm, x).value.rank)
    ensures r.1.Some? ==> (r.1.value.win <==> x.perf.points > Opponent(mm, x).value.perf.points)
  {
    var o := Opponent(mm, x);
    (x.perf.rosterId,
     Team.NewWeekPerformance(week, x.perf.points, x.rank,
                             if o.Some? then Some(o.value.perf.points) else None,
                             if o.Some? then Some(o.value.rank) else None))
  }

  /** The outcome of every ranked performance, in ranked order. */
  function WeekOutcomes(week: int, ranked: seq<Ranked>): (r: seq<(int, Option<Team.WeekPerformance>)>)
    ensures |r| == |ranked|
    ensures forall i :: 0 <= i < |ranked| ==> r[i] == Outcome(week, MatchupMap(ranked), ranked[i])
  {
    var mm := MatchupMap(ranked);
    seq(|ranked|, i requires 0 <= i < |ranked| => Outcome(week, mm, ranked[i]))
  }

  /** In a matchup of two rosters each is the other's opponent, both record
      the week, and at most one of them wins it. */
  lemma {:induction false} HeadToHead(week: int, ranked: seq<Ranked>, x: Ranked, y: Ranked)
    requires Group(ranked, x.perf.matchupId) == [x, y] && x.perf.rosterId != y.perf.rosterId
    ensures Opponent(MatchupMap(ranked), x) == Some(y) && Opponent(MatchupMap(ranked), y) == Some(x)
    ensures Outcome(week, MatchupMap(ranked), x).1.Some? && Outcome(week, MatchupMap(ranked), y).1.Some?
    ensures !(Outcome(week, MatchupMap(ranked), x).1.value.win && Outcome(week, MatchupMap(ranked), y).1.value.win)
  {
    var g := [x, y];
    assert y in g;
    MatchupMapGroups(ranked, x.perf.matchupId);
    assert FirstOther(g, x.perf.rosterId) == Some(1);
    assert FirstOther(g, y.perf.rosterId) == Some(0);
  }

  /** The insertion loop: an outcome whose roster has a team is inserted into
      that team; one whose roster has none is skipped; a present roster
      without an opponent raises (None). */
  function Apply(teams: Teams, outs: seq<(int, Option<Team.WeekPerformance>)>): Option<Teams>
    decreases |outs|
  {
    if |outs| == 0 then Some(teams)
    else
      match Get(teams, outs[0].0)
      case None => Apply(teams, outs[1..])
      case Some(t) =>
        if outs[0].1.None? then None
        else Apply(Put(teams, outs[0].0, Team.InsertWeek(t, outs[0].1.value)), outs[1..])
  }

  /** Some outcome without a performance belongs to a roster that has a team. */
  ghost predicate Raises(teams: Teams, outs: seq<(int, Option<Team.WeekPerformance>)>)
  {
    exists i :: 0 <= i < |outs| && outs[i].1.None? && Get(teams, outs[i].0).Some?
  }

  /** The performances recorded for roster k, in order. */
  function WeeksFor(outs: seq<(int, Option<Team.WeekPerformance>)>, k: int): seq<Team.WeekPerformance>
    decreases |outs|
  {
    if |outs| == 0 then []
    else (if outs[0].0 == k && outs[0].1.Some? then [outs[0].1.value] else []) + WeeksFor(outs[1..], k)
  }

  lemma {:induction false} RaisesCons(teams: Teams, outs: seq<(int, Option<Team.WeekPerformance>)>, next: Teams)
    requires |outs| > 0 && !(outs[0].1.None? && Get(teams, outs[0].0).Some?)
    requires forall k :: Get(next, k).Some? <==> Get(teams, k).Some?
    ensures Raises(teams, outs) <==> Raises(next, outs[1..])
  {
    if Raises(teams, outs) {
      var i :| 0 <= i < |outs| && outs[i].1.None? && Get(teams, outs[i].0).Some?;
      assert i > 0;
      assert outs[1..][i - 1] == outs[i];
      assert Get(next, outs[i].0).Some?;
      assert Raises(next, outs[1..]);
    }
    if Raises(next, outs[1..]) {
      var i :| 0 <= i < |outs[1..]| && outs[1..][i].1.None? && Get(next, outs[1..][i].0).Some?;
      assert outs[i + 1] == outs[1..][i];
      assert Get(teams, outs[i + 1].0).Some?;
      assert Raises(teams, outs);
    }
  }

  /** The loop raises exactly when a roster with a team has no opponent. */
  lemma {:induction false} ApplyRaises(teams: Teams, outs: seq<(int, Option<Team.WeekPerformance>)>)
    ensures Apply(teams, outs).None? <==> Raises(teams, outs)
    decreases |outs|
  {
    if |outs| > 0 {
      var id := outs[0].0;
      if Get(teams, id).None? {
        RaisesCons(teams, outs, teams);
        ApplyRaises(teams, outs[1..]);
      } else if outs[0].1.Some? {
        var next := Put(teams, id, Team.InsertWeek(Get(teams, id).value, outs[0].1.value));
        forall k ensures Get(next, k).Some? <==> Get(teams, k).Some? {
          PutPresent(teams, id, Team.InsertWeek(Get(teams, id).value, outs[0].1.value), k);
        }
        RaisesCons(teams, outs, next);
        ApplyRaises(next, outs[1..]);
      }
    }
  }

  /** The loop keeps the rosters and their order. */
  lemma {:induction false} ApplyKeys(teams: Teams, outs: seq<(int, Option<Team.WeekPerformance>)>)
    requires Apply(teams, outs).Some?
    ensures Keys(Apply(teams, outs).value) == Keys(teams)
    decreases |outs|
  {
    if |outs| > 0 {
      var id := outs[0].0;
      if Get(teams, id).None? {
        ApplyKeys(teams, outs[1..]);
      } else {
        var t := Team.InsertWeek(Get(teams, id).value, outs[0].1.value);
        PutKeys(teams, id, t);
        ApplyKeys(Put(teams, id, t), outs[1..]);
      }
    }
  }

  /** Each team ends up with its own performances inserted in order, and a
      roster without a team gets none. */
  lemma {:induction false} ApplyPerTeam(teams: Teams, outs: seq<(int, Option<Team.WeekPerformance>)>, k: int)
    requires Apply(teams, outs).Some?
    ensures Get(Apply(teams, outs).value, k) ==
            if Get(teams, k).None? then None else Some(Team.InsertAll(Get(teams, k).value, WeeksFor(outs, k)))
    decreases |outs|
  {
    if |outs| == 0 {
      assert WeeksFor(outs, k) == [];
    } else if Get(teams, outs[0].0).None? {
      assert Apply(teams, outs) == Apply(teams, outs[1..]);
      ApplyPerTeam(teams, outs[1..], k);
      if k != outs[0].0 {
        WeeksForOther(outs, k);
      }
    } else {
      var id, w := outs[0].0, outs[0].1.value;
      var t := Team.InsertWeek(Get(teams, id).value, w);
      var next := Put(teams, id, t);
      assert Apply(teams, outs) == Apply(next, outs[1..]);
      ApplyPerTeam(next, outs[1..], k);
      if k == id {
        InsertedFirst(outs, k, Get(teams, id).value);
      } else {
        PutOther(teams, id, t, k);
        WeeksForOther(outs, k);
      }
    }
  }

  lemma {:induction false} WeeksForOther(outs: seq<(int, Option<Team.WeekPerformance>)>, k: int)
    requires |outs| > 0 && outs[0].0 != k
    ensures WeeksFor(outs, k) == WeeksFor(outs[1..], k)
  {
    assert WeeksFor(outs, k) == [] + WeeksFor(outs[1..], k);
  }

  lemma {:induction false} InsertedFirst(outs: seq<(int, Option<Team.WeekPerformance>)>, k: int, t: Team.Team)
    requires |outs| > 0 && outs[0].0 == k && outs[0].1.Some?
    ensures Team.InsertAll(t, WeeksFor(outs, k)) == Team.InsertAll(Team.InsertWeek(t, outs[0].1.value), WeeksFor(outs[1..], k))
  {
    var ws := WeeksFor(outs, k);
    assert ws == [outs[0].1.value] + WeeksFor(outs[1..], k);
    assert ws[0] == outs[0].1.value && ws[1..] == WeeksFor(outs[1..], k);
  }

  /** Scores one week: ranks its performances, pairs the opponents and
      inserts each roster's performance into its team. */
  function ScoreWeek(teams: Teams, week: int, perfs: seq<Performance>): Option<Teams>
  {
    Apply(teams, WeekOutcomes(week, RankWeek(perfs)))
  }

  /** The scoring of one week as a step of the week loop; `fetch` stands for
      the matchups the API returns for a week. */
  function WeekStep(fetch: int -> seq<Performance>): (Teams, int) -> Option<Teams>
  {
    (t: Teams, w: int) => ScoreWeek(t, w, fetch(w))
  }

  /** Runs `step` on weeks `week` up to `currentWeek - 1` in order, and fails
      as soon as one week fails. */
  function WeekLoop(step: (Teams, int) -> Option<Teams>, teams: Teams, week: int, currentWeek: int): Option<Teams>
    decreases currentWeek - week
  {
    if week >= currentWeek then Some(teams)
    else
      match step(teams, week)
      case None => None
      case Some(next) => WeekLoop(step, next, week + 1, currentWeek)
  }

  /** A loop of steps that keep the keys keeps the keys. */
  lemma {:induction false} WeekLoopKeys(step: (Teams, int) -> Option<Teams>, teams: Teams, week: int, currentWeek: int)
    requires forall t: Teams, w: int :: step(t, w).Some? ==> Keys(step(t, w).value) == Keys(t)
    requires WeekLoop(step, teams, week, currentWeek).Some?
    ensures Keys(WeekLoop(step, teams, week, currentWeek).value) == Keys(teams)
    decreases currentWeek - week
  {
    if week < currentWeek {
      WeekLoopKeys(step, step(teams, week).value, week + 1, currentWeek);
    }
  }

  /** Scoring a week never adds or removes a roster. */
  lemma {:induction false} WeekStepKeys(fetch: int -> seq<Performance>)
    ensures forall t: Teams, w: int :: WeekStep(fetch)(t, w).Some? ==> Keys(WeekStep(fetch)(t, w).value) == Keys(t)
  {
    forall t: Teams, w: int | WeekStep(fetch)(t, w).Some?
      ensures Keys(WeekStep(fetch)(t, w).value) == Keys(t)
    {
      ApplyKeys(t, WeekOutcomes(w, RankWeek(fetch(w))));
    }
  }

  /** `retrieve_scoring`: weeks 1 to currentWeek - 1, none when currentWeek is
      at most 1. The rosters and their order never change. */
  function RetrieveScoring(teams: Teams, currentWeek: int, fetch: int -> seq<Performance>): (r: Option<Teams>)
    ensures r.Some? ==> Keys(r.value) == Keys(teams)
  {
    var r := WeekLoop(WeekStep(fetch), teams, 1, currentWeek);
    if r.Some? then WeekStepKeys(fetch); WeekLoopKeys(WeekStep(fetch), teams, 1, currentWeek); r else r
  }

  /** A consistent team whose weeks all lie in 1 .. hi - 1. */
  ghost predicate Recorded(t: Team.Team, hi: int)
  {
    Team.Consistent(t) && WeeksWithin(t.weeks, hi)
  }

  /** Every team the dict holds is recorded below hi. */
  ghost predicate AllRecorded(teams: Teams, hi: int)
  {
    forall k :: Get(teams, k).Some? ==> Recorded(Get(teams, k).value, hi)
  }

  /** All weeks lie in lo .. hi - 1. */
  ghost predicate WeeksWithin(weeks: seq<Team.WeekPerformance>, hi: int)
  {
    forall k :: 0 <= k < |weeks| ==> 1 <= weeks[k].week < hi
  }

  lemma {:induction false} PermutedWithin(a: seq<Team.WeekPerformance>, b: seq<Team.WeekPerformance>, w: Team.WeekPerformance, hi: int)
    requires multiset(b) == multiset(a) + multiset{w}
    requires WeeksWithin(a, hi) && 1 <= w.week < hi
    ensures WeeksWithin(b, hi)
  {
    forall k | 0 <= k < |b| ensures 1 <= b[k].week < hi {
      assert b[k] in multiset(b);
      if b[k] != w {
        assert b[k] in multiset(a);
      }
    }
  }

  lemma {:induction false} InsertRecorded(t: Team.Team, w: Team.WeekPerformance, hi: int)
    requires Recorded(t, hi) && 1 <= w.week < hi
    ensures Recorded(Team.InsertWeek(t, w), hi)
  {
    Team.InsertWeekConsistent(t, w);
    assert WeeksWithin(t.weeks, hi);
    PermutedWithin(t.weeks, Team.InsertWeek(t, w).weeks, w, hi);
  }

  /** Every outcome with a performance is of week `week`. */
  ghost predicate OfWeek(outs: seq<(int, Option<Team.WeekPerformance>)>, week: int)
  {
    forall i :: 0 <= i < |outs| && outs[i].1.Some? ==> outs[i].1.value.week == week
  }

  lemma {:induction false} OutcomesOfWeek(week: int, ranked: seq<Ranked>)
    ensures OfWeek(WeekOutcomes(week, ranked), week)
  {
    var outs := WeekOutcomes(week, ranked);
    forall i | 0 <= i < |outs| && outs[i].1.Some? ensures outs[i].1.value.week == week {
      assert outs[i] == Outcome(week, MatchupMap(ranked), ranked[i]);
    }
  }

  lemma {:induction false} ApplyRecorded(teams: Teams, outs: seq<(int, Option<Team.WeekPerformance>)>, week: int, hi: int)
    requires AllRecorded(teams, hi) && OfWeek(outs, week) && 1 <= week < hi
    requires Apply(teams, outs).Some?
    ensures AllRecorded(Apply(teams, outs).value, hi)
    decreases |outs|
  {
    if |outs| > 0 {
      assert OfWeek(outs[1..], week) by {
        forall i | 0 <= i < |outs[1..]| && outs[1..][i].1.Some? ensures outs[1..][i].1.value.week == week {
          assert outs[1..][i] == outs[i + 1];
        }
      }
      var id := outs[0].0;
      if Get(teams, id).None? {
        ApplyRecorded(teams, outs[1..], week, hi);
      } else {
        var w := outs[0].1.value;
        var t := Team.InsertWeek(Get(teams, id).value, w);
        var next := Put(teams, id, t);
        InsertRecorded(Get(teams, id).value, w, hi);
        assert AllRecorded(next, hi) by {
          forall k | Get(next, k).Some? ensures Recorded(Get(next, k).value, hi) {
            if k != id {
              PutOther(teams, id, t, k);
            }
          }
        }
        ApplyRecorded(next, outs[1..], week, hi);
      }
    }
  }

  lemma {:induction false} RecordedWiden(teams: Teams, hi: int, hi2: int)
    requires AllRecorded(teams, hi) && hi <= hi2
    ensures AllRecorded(teams, hi2)
  {
    forall k | Get(teams, k).Some? ensures Recorded(Get(teams, k).value, hi2) {
      assert Recorded(Get(teams, k).value, hi);
    }
  }

  /** Scoring a week keeps the teams recorded, now up to that week. */
  lemma {:induction false} ScoreWeekRecorded(teams: Teams, week: int, perfs: seq<Performance>)
    requires 1 <= week && AllRecorded(teams, week) && ScoreWeek(teams, week, perfs).Some?
    ensures AllRecorded(ScoreWeek(teams, week, perfs).value, week + 1)
  {
    var outs := WeekOutcomes(week, RankWeek(perfs));
    RecordedWiden(teams, week, week + 1);
    OutcomesOfWeek(week, RankWeek(perfs));
    ApplyRecorded(teams, outs, week, week + 1);
  }

  /** A loop of steps that each keep the teams recorded up to their week keeps
      them recorded up to the last week. */
  lemma {:induction false} WeekLoopRecorded(step: (Teams, int) -> Option<Teams>, teams: Teams, week: int, currentWeek: int, r: Teams)
    requires 1 <= week <= currentWeek && AllRecorded(teams, week)
    requires forall t: Teams, w: int :: 1 <= w && AllRecorded(t, w) && step(t, w).Some? ==> AllRecorded(step(t, w).value, w + 1)
    requires WeekLoop(step, teams, week, currentWeek) == Some(r)
    ensures AllRecorded(r, currentWeek)
    decreases currentWeek - week
  {
    if week < currentWeek {
      WeekLoopRecorded(step, step(teams, week).value, week + 1, currentWeek, r);
    }
  }

  /** Scoring fresh teams leaves every team consistent, with every recorded
      week between 1 and currentWeek - 1. */
  lemma {:induction false} ScoringRecordsPastWeeks(teams: Teams, currentWeek: int, fetch: int -> seq<Performance>, k: int)
    requires forall id :: Get(teams, id).Some? ==> Team.Consistent(Get(teams, id).value) && Get(teams, id).value.weeks == []
    requires RetrieveScoring(teams, currentWeek, fetch).Some?
    requires Get(RetrieveScoring(teams, currentWeek, fetch).value, k).Some?
    ensures Team.Consistent(Get(RetrieveScoring(teams, currentWeek, fetch).value, k).value)
    ensures forall i :: 0 <= i < |Get(RetrieveScoring(teams, currentWeek, fetch).value, k).value.weeks| ==>
              1 <= Get(RetrieveScoring(teams, currentWeek, fetch).value, k).value.weeks[i].week < currentWeek
  {
    var r := RetrieveScoring(teams, currentWeek, fetch).value;
    if currentWeek <= 1 {
      assert r == teams;
    } else {
      assert AllRecorded(teams, 1);
      forall t: Teams, w: int | 1 <= w && AllRecorded(t, w) && WeekStep(fetch)(t, w).Some?
        ensures AllRecorded(WeekStep(fetch)(t, w).value, w + 1)
      {
        ScoreWeekRecorded(t, w, fetch(w));
      }
      WeekLoopRecorded(WeekStep(fetch), teams, 1, currentWeek, r);
      assert Recorded(Get(r, k).value, currentWeek);
    }
  }

  // ---------------------------------------------------------------------------
  // Read-outs
  // ---------------------------------------------------------------------------

  /** Team i is the first, in dict order, with short name n. */
  ghost predicate FirstNamed(teams: Teams, n: string, i: int)
  {
    0 <= i < |teams| && teams[i].1.shortName == n && forall j :: 0 <= j < i ==> teams[j].1.shortName != n
  }

  /** `getTeamScores`: the weekly points of the first team with the short
      name, or nothing when no team has it. */
  function GetTeamScores(teams: Teams, n: string): (r: seq<real>)
    ensures (forall j :: 0 <= j < |teams| ==> teams[j].1.shortName != n) ==> r == []
    ensures forall i :: FirstNamed(teams, n, i) ==> r == Team.GetPoints(teams[i].1)
    decreases |teams|
  {
    if |teams| == 0 then []
    else if teams[0].1.shortName == n then Team.GetPoints(teams[0].1)
    else
      var r := GetTeamScores(teams[1..], n);
      assert forall j :: 1 <= j < |teams| ==> teams[j] == teams[1..][j - 1];
      forall i | FirstNamed(teams, n, i) ensures r == Team.GetPoints(teams[i].1) {
        assert FirstNamed(teams[1..], n, i - 1);
      }
      r
  }

  /** `getWeekScores`: each team's short name with its entry for the week, in
      dict order. A team without that entry yields None, which cannot be
      unpacked into the row, and a failed index raises too: None. */
  function WeekScores(teams: Teams, week: int): (r: Option<seq<(string, Team.WeekPerformance)>>)
    ensures r.None? <==> exists j :: 0 <= j < |teams| && !Team.GetWeek(teams[j].1, week).Entry?
    ensures r.Some? ==> |r.value| == |teams|
    ensures r.Some? ==> forall j :: 0 <= j < |teams| ==> r.value[j] == (teams[j].1.shortName, Team.GetWeek(teams[j].1, week).perf)
    decreases |teams|
  {
    if |teams| == 0 then Some([])
    else
      var head := Team.GetWeek(teams[0].1, week);
      var rest := WeekScores(teams[1..], week);
      assert forall j :: 1 <= j < |teams| ==> teams[j] == teams[1..][j - 1];
      if !head.Entry? then None
      else if rest.None? then
        var j :| 0 <= j < |teams[1..]| && !Team.GetWeek(teams[1..][j].1, week).Entry?;
        assert !Team.GetWeek(teams[j + 1].1, week).Entry?;
        None
      else
        Some([(teams[0].1.shortName, head.perf)] + rest.value)
  }

  /** Once every team holds weeks 1..n once each, the scores of any week up
      to n can be read: each row is that team's performance of that week. */
  lemma {:induction false} WeekScoresOfScoredWeeks(teams: Teams, week: int)
    requires 1 <= week
    requires forall j :: 0 <= j < |teams| ==>
               Team.Consistent(teams[j].1) && Team.WeeksOneToN(teams[j].1.weeks) && week <= |teams[j].1.weeks|
    ensures WeekScores(teams, week).Some?
    ensures forall j :: 0 <= j < |teams| ==> WeekScores(teams, week).value[j].1.week == week
  {
    forall j | 0 <= j < |teams| ensures Team.GetWeek(teams[j].1, week).Entry? && Team.GetWeek(teams[j].1, week).perf.week == week {
      Team.HistoryByWeek(teams[j].1);
    }
  }
}
