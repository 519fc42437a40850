/** lib/providers/wecom.js: the WeCom (WeChat Work) directory provider. It
    has the shape of the DingTalk provider with four differences: no
    synthetic root department, users fetched as raw member records whose
    address and status are renamed, later records of a `userid` kept, and a
    lower-case `uid` with neither `pinyin` nor `remark`. The API calls and
    the JSON cache files are inputs: `cached` stands for what
    `loadCacheFromFile` returned, `fetched` for the department list the API
    returned (None when the call failed) and `membersOf` for the member list
    of a department. */
module Wecom {
  import opened Common
  import opened Entries
  import opened Ldap
  import opened Departments
  import opened People
  import opened Roster

  // ---------------------------------------------------------------------------
  // fetchAllDepartments

  /** `depsMap` after the fetched departments are stored in it: every
      fetched department under its id with its name cleaned up. */
  function Table(fetched: seq<Dept>): (m: map<nat, Dept>)
    ensures KeyedById(m)
    ensures m.Keys == Ids(fetched)
  {
    MergeKeyed(map[], fetched);
    Merge(map[], fetched)
  }

  /** Only fetched departments are in the table, and the last fetched
      department with an id wins, its name cleaned up. */
  lemma TableEntries(fetched: seq<Dept>, i: nat)
    ensures forall id :: id in Table(fetched) <==> exists j :: 0 <= j < |fetched| && fetched[j].id == id
    ensures i < |fetched| && (forall j :: i < j < |fetched| ==> fetched[j].id != fetched[i].id) ==>
              Table(fetched)[fetched[i].id] == fetched[i].(name := NormalizeName(fetched[i].name))
  {
    IdsMembers(fetched);
    if i < |fetched| && (forall j :: i < j < |fetched| ==> fetched[j].id != fetched[i].id) {
      MergeLastWins(map[], fetched, i);
    }
  }

  /** What `fetchAllDepartments()` gives: the cached list with its DNs;
      without a cache, nothing when the API call failed, and otherwise the
      table in id order, renamed, with its DNs. None where a DN walk meets a
      missing department. */
  function DepartmentsOf(cached: Option<seq<Dept>>, fetched: Option<seq<Dept>>): Option<seq<Dept>>
  {
    if cached.Some? then Placed(cached.value)
    else if fetched.None? then Some([])
    else Placed(Renamed(ValuesInKeyOrder(Table(fetched.value))))
  }

  /** `fetchAllDepartments()`, as in the DingTalk provider but over the table
      without a root. A cached list is in ascending id order because the
      program wrote it from `Object.values`. */
  method FetchAllDepartments(cached: Option<seq<Dept>>, fetched: Option<seq<Dept>>) returns (r: Option<seq<Dept>>)
    requires cached.Some? ==> Ascending(cached.value) && WalksEnd(cached.value)
    requires cached.None? && fetched.Some? ==> WalksEnd(ValuesInKeyOrder(Table(fetched.value)))
    ensures cached.None? && fetched.None? ==> r == Some([])
    ensures cached.Some? ==>
              (r.None? <==> exists i :: 0 <= i < |cached.value| && DnOf(MapOf(cached.value), cached.value[i], |cached.value|).None?)
    ensures cached.Some? && r.Some? ==>
              |r.value| == |cached.value| &&
              forall i :: 0 <= i < |cached.value| ==>
                r.value[i] == cached.value[i].(dn := DnOf(MapOf(cached.value), cached.value[i], |cached.value|).value)
    ensures cached.None? && fetched.Some? && r.Some? ==>
              SameLinks(ValuesInKeyOrder(Table(fetched.value)), r.value) && DistinctNames(r.value)
    ensures r.Some? ==> Ascending(r.value) && Closes(MapOf(r.value)) && ParentsClosed(MapOf(r.value))
    ensures r == DepartmentsOf(cached, fetched)
  {
    if cached.Some? {
      r := AssignDNs(cached.value);
      if r.Some? {
        PlacedTable(cached.value, r.value);
      }
    } else if fetched.None? {
      r := Some([]);
    } else {
      var values := ValuesInKeyOrder(Table(fetched.value));
      var named;
      r, named := NameAndPlace(values);
      if r.Some? {
        SameLinksKeep(values, r.value);
      }
    }
  }

  // ---------------------------------------------------------------------------
  // fetchDepartmentUsers and fetchAllUsers

  /** A member record as the `user/list` call returns it. */
  datatype Member = Member(
    userid: string,
    name: string,
    position: string,
    mobile: string,
    avatar: string,
    email: string,
    bizMail: string,
    status: int,
    department: seq<nat>)

  /** The rewrite `fetchDepartmentUsers` applies to each member record of
      department `d`. */
  function Adopt(v: Member, d: Dept): (u: User)
  {
    User(v.userid, v.name, v.position, v.mobile, v.avatar, "", v.bizMail, v.email, v.status == 1, v.department, d)
  }

  /** The user keeps the member's identity, name, contact fields and
      departments; its organisation address is the business mailbox, it is
      active iff the status is 1, and its first department is the one asked
      about. */
  lemma AdoptMeaning(v: Member, d: Dept)
    ensures var u := Adopt(v, d);
            && u.userid == v.userid && u.name == v.name && u.email == v.email && u.department == v.department
            && u.orgEmail == v.bizMail && (u.active <==> v.status == 1) && u.firstDepartment == d
            && (HasEmail(u) <==> v.bizMail != "" || v.email != "")
            && Mail(u) == Lower(if v.bizMail != "" then v.bizMail else v.email)
  {
  }

  /** `fetchDepartmentUsers(department)`. */
  function DepartmentUsers(d: Dept, membersOf: Dept -> seq<Member>): seq<User>
  {
    seq(|membersOf(d)|, k requires 0 <= k < |membersOf(d)| => Adopt(membersOf(d)[k], d))
  }

  /** The users of the first `n` departments, department after department. */
  function Listed(ds: seq<Dept>, membersOf: Dept -> seq<Member>, n: nat): seq<User>
    requires n <= |ds|
  {
    if n == 0 then [] else Listed(ds, membersOf, n - 1) + DepartmentUsers(ds[n - 1], membersOf)
  }

  /** A listed user is a member record of one of the departments adopted by
      that department, and every such record is listed. */
  lemma {:induction false} ListedMembers(ds: seq<Dept>, membersOf: Dept -> seq<Member>, n: nat, u: User)
    requires n <= |ds|
    ensures u in Listed(ds, membersOf, n) <==>
              exists i, v :: 0 <= i < n && v in membersOf(ds[i]) && u == Adopt(v, ds[i])
  {
    if n > 0 {
      ListedMembers(ds, membersOf, n - 1, u);
      var d := ds[n - 1];
      if u in DepartmentUsers(d, membersOf) {
        var k :| 0 <= k < |membersOf(d)| && DepartmentUsers(d, membersOf)[k] == u;
        assert membersOf(d)[k] in membersOf(ds[n - 1]);
      }
      if exists v :: v in membersOf(d) && u == Adopt(v, d) {
        var v :| v in membersOf(d) && u == Adopt(v, d);
        var k :| 0 <= k < |membersOf(d)| && membersOf(d)[k] == v;
        assert DepartmentUsers(d, membersOf)[k] == u;
      }
    }
  }

  /** `fetchAllUsers(departments)`: a cached list as it is; otherwise, with
      at least one department, the users of every department in order (no
      address filter here); with no department and no cache, null. */
  method FetchAllUsers(departments: seq<Dept>, cached: Option<seq<User>>, membersOf: Dept -> seq<Member>)
      returns (r: Option<seq<User>>)
    ensures cached.Some? ==> r == cached
    ensures cached.None? && |departments| == 0 ==> r.None?
    ensures cached.None? && |departments| > 0 ==> r == Some(Listed(departments, membersOf, |departments|))
  {
    if cached.Some? {
      return cached;
    }
    if |departments| == 0 {
      return None;
    }
    var all: seq<User> := [];
    for i := 0 to |departments|
      invariant all == Listed(departments, membersOf, i)
    {
      var fetchedUsers := DepartmentUsers(departments[i], membersOf);
      all := all + fetchedUsers;
    }
    r := Some(all);
  }

  // ---------------------------------------------------------------------------
  // The person entry of a user

  /** The attributes `reloadFromWeComServer` gives `makePersonEntry` for a
      user. */
  function PersonAttrs(u: User): (r: Attributes)
    ensures r.Keys == {"uid", "title", "mobileTelephoneNumber", "cn", "givenName", "sn", "mail", "avatarurl"}
  {
    var (givenName, sn) := ParseName(u.name);
    map["uid" := Str(Lower(u.userid)),
        "title" := Str(u.position),
        "mobileTelephoneNumber" := Str(u.mobile),
        "cn" := Str(u.name),
        "givenName" := Str(givenName),
        "sn" := Str(sn),
        "mail" := Str(Mail(u)),
        "avatarurl" := Str(u.avatar)]
  }

  function AttrsOf(): User -> Attributes
  {
    u => PersonAttrs(u)
  }

  /** The attributes leave `memberOf` to the enrolment. */
  lemma AttrsOfNoMemberOf()
    ensures forall u :: "memberOf" !in AttrsOf()(u)
  {
    forall u ensures "memberOf" !in AttrsOf()(u) {
      assert AttrsOf()(u) == PersonAttrs(u);
    }
  }

  /** What the attributes hold: a lower-case `uid` and address, and a split
      of the name that puts it back together. */
  lemma PersonAttrsMeaning(u: User)
    ensures var a := PersonAttrs(u);
            && a["uid"] == Str(Lower(u.userid)) && Lower(a["uid"].s) == a["uid"].s
            && a["mail"] == Str(Mail(u)) && Lower(Mail(u)) == Mail(u)
            && a["cn"] == Str(u.name)
            && (IndexOf(u.name, ' ') > 0 ==> a["givenName"].s + " " + a["sn"].s == u.name && ' ' !in a["sn"].s)
            && (IndexOf(u.name, ' ') <= 0 ==> a["sn"].s + a["givenName"].s == u.name && |a["sn"].s| <= 1)
  {
    LowerIdempotent(u.userid);
    MailLower(u);
    ParseNameMeaning(u.name);
  }

  /** A user's person entry keeps every attribute given above and lists as
      `memberOf` the groups of every department of the user and of their
      ancestors. */
  lemma PersonEntryMeaning(c: Config, m: map<nat, Dept>, u: User, random: string, y: string)
    ensures var a := PersonShape(c, m, GroupDns(c, m), u, PersonAttrs(u), random).1;
            && (forall k :: k in PersonAttrs(u) ==> k in a && a[k] == PersonAttrs(u)[k])
            && (y in ListOf(a, "memberOf") <==> exists x :: x in Walk(m, u.department, |u.department|) && y == GroupDns(c, m)[x])
  {
    var attrs := PersonAttrs(u);
    assert "memberOf" !in attrs;
    PersonMemberOfs(c, m, u, attrs, random, y);
  }

  // ---------------------------------------------------------------------------
  // The user selection

  /** The two filters of the reload: the first record of each `userid` if
      active and every later record, then only users with an address. */
  function Selected(users: seq<User>): seq<User>
  {
    WithEmail(ActiveFirst(users, true))
  }

  /** A user is selected iff it has an address and some record of it is
      either a later record of its `userid` or an active first record. So an
      inactive user listed under two departments is still selected, from
      its second record. */
  lemma SelectedMeaning(users: seq<User>, u: User)
    ensures u in Selected(users) <==>
              HasEmail(u) && exists i :: 0 <= i < |users| && users[i] == u && (FirstOccurrence(users, i) ==> u.active)
  {
    ActiveFirstMembers(users, true, u);
  }

  /** The inactive user of `SelectedMeaning`: listed twice with an address,
      it is selected once, from its second record. */
  lemma InactiveDuplicateSelected(u: User)
    requires !u.active && HasEmail(u)
    ensures Selected([u, u]) == [u]
  {
    DuplicateKept(u, u);
    assert [u][..0] == [];
    assert WithEmail([u]) == WithEmail([]) + [u];
  }

  // ---------------------------------------------------------------------------
  // The provider's state and the reload

  /** The module-level lists of wecom.js. */
  class Provider {
    var allLDAPUsers: seq<Entry>
    var allLDAPOrgUnits: seq<Entry>
    var allLDAPGroups: seq<Entry>
    var allLDAPEntries: seq<Entry>

    constructor ()
      ensures allLDAPUsers == [] && allLDAPOrgUnits == [] && allLDAPGroups == [] && allLDAPEntries == []
    {
      allLDAPUsers := [];
      allLDAPOrgUnits := [];
      allLDAPGroups := [];
      allLDAPEntries := [];
    }

    /** `getAllLDAPEntries()`. */
    function GetAllLDAPEntries(): (r: seq<Entry>)
      reads this
      ensures r == allLDAPEntries
    {
      allLDAPEntries
    }

    /** The end of `reloadFromWeComServer()` once the departments and the
        selected users are known: the entries, and the lists stored. */
    method Publish(c: Config, ds: seq<Dept>, chosen: seq<User>, randomOf: nat -> string)
      requires Ascending(ds) && Closes(MapOf(ds)) && ParentsClosed(MapOf(ds))
      modifies this
      ensures Publishes(c, ds, chosen, AttrsOf(), randomOf, allLDAPGroups, allLDAPOrgUnits, allLDAPUsers)
      ensures allLDAPEntries == allLDAPGroups + allLDAPOrgUnits + allLDAPUsers
    {
      AttrsOfNoMemberOf();
      var groups, units, persons := BuildDirectory(c, ds, chosen, AttrsOf(), randomOf);
      Store(groups, units, persons);
    }

    /** `allLDAPEntries = [].concat(allLDAPGroups, allLDAPOrgUnits,
        allLDAPUsers)` after the three lists are stored. */
    method Store(groups: seq<Entry>, units: seq<Entry>, persons: seq<Entry>)
      modifies this
      ensures allLDAPGroups == groups && allLDAPOrgUnits == units && allLDAPUsers == persons
      ensures Shapes(groups) == old(Shapes(groups)) && Shapes(units) == old(Shapes(units)) && Shapes(persons) == old(Shapes(persons))
      ensures allLDAPEntries == allLDAPGroups + allLDAPOrgUnits + allLDAPUsers
    {
      allLDAPOrgUnits := units;
      allLDAPGroups := groups;
      allLDAPUsers := persons;
      allLDAPEntries := groups + units + persons;
    }

    /** `reloadFromWeComServer()`. `deps` is what `fetchAllDepartments`
        returned (None where it threw) and `selected` the users the two
        filters kept. A throw leaves the lists as the source leaves them:
        untouched when the DN walk fails; with no department and no cached
        users, `fetchAllUsers` returns null after the (empty) unit and group
        lists were stored, and the filter on it throws. A cached department
        list is in ascending id order, as the program wrote it. */
    method Reload(c: Config, cachedDeps: Option<seq<Dept>>, fetched: Option<seq<Dept>>,
                  cachedUsers: Option<seq<User>>, membersOf: Dept -> seq<Member>, randomOf: nat -> string)
        returns (ok: bool, ghost deps: Option<seq<Dept>>, ghost selected: seq<User>)
      requires cachedDeps.Some? ==> Ascending(cachedDeps.value) && WalksEnd(cachedDeps.value)
      requires cachedDeps.None? && fetched.Some? ==> WalksEnd(ValuesInKeyOrder(Table(fetched.value)))
      modifies this
      ensures deps == DepartmentsOf(cachedDeps, fetched)
      ensures deps.None? ==> !ok && unchanged(this)
      ensures deps.Some? && !ok ==>
                deps.value == [] && cachedUsers.None? &&
                allLDAPOrgUnits == [] && allLDAPGroups == [] &&
                allLDAPUsers == old(allLDAPUsers) && allLDAPEntries == old(allLDAPEntries)
      ensures ok ==> deps.Some?
      ensures ok && cachedUsers.Some? ==> selected == Selected(cachedUsers.value)
      ensures ok && cachedUsers.None? ==> selected == Selected(Listed(deps.value, membersOf, |deps.value|))
      ensures ok ==> Publishes(c, deps.value, selected, AttrsOf(), randomOf, allLDAPGroups, allLDAPOrgUnits, allLDAPUsers)
      ensures ok ==> allLDAPEntries == allLDAPGroups + allLDAPOrgUnits + allLDAPUsers
    {
      var found := FetchAllDepartments(cachedDeps, fetched);
      deps := found;
      selected := [];
      if found.None? {
        return false, deps, selected;
      }
      var ds := found.value;
      var users := FetchAllUsers(ds, cachedUsers, membersOf);
      if users.None? {
        allLDAPOrgUnits := [];
        allLDAPGroups := [];
        return false, deps, selected;
      }
      var kept := FilterActive(users.value, true);
      var chosen := WithEmail(kept);
      selected := chosen;
      Publish(c, ds, chosen, randomOf);
      ok := true;
    }
  }
}
