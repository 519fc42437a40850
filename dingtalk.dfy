/** lib/providers/dingtalk.js: the DingTalk directory provider. The calls to
    the DingTalk API and the JSON cache files are inputs here: a `cached`
    argument stands for what `loadCacheFromFile` returned (None when there is
    no cache file), a `fetched` argument for what the API call returned (None
    when it failed), `usersOf` for the pages of users of a department and
    `pinyinOf` for the pinyin library. */
module Dingtalk {
  import opened Common
  import opened Entries
  import opened Ldap
  import opened Departments
  import opened People
  import opened Roster

  /** The root department the table starts from: `{name: 'Staff', id: 1,
      parentid: null}`. */
  const Staff: Dept := Dept(1, "Staff", 0, "")

  // ---------------------------------------------------------------------------
  // fetchAllDepartments

  /** `depsMap` after the fetched departments are stored in it: the root
      first, then every fetched department under its id with its name
      cleaned up. */
  function Table(fetched: seq<Dept>): (m: map<nat, Dept>)
    ensures KeyedById(m)
    ensures m.Keys == {1} + Ids(fetched)
  {
    MergeKeyed(map[1 := Staff], fetched);
    Merge(map[1 := Staff], fetched)
  }

  /** The root stays `Staff` unless a fetched department has id 1; otherwise
      (and for every other id) the last fetched department with the id wins. */
  lemma TableEntries(fetched: seq<Dept>, i: nat)
    ensures (forall j :: 0 <= j < |fetched| ==> fetched[j].id != 1) ==> Table(fetched)[1] == Staff
    ensures i < |fetched| && (forall j :: i < j < |fetched| ==> fetched[j].id != fetched[i].id) ==>
              Table(fetched)[fetched[i].id] == fetched[i].(name := NormalizeName(fetched[i].name))
  {
    if forall j :: 0 <= j < |fetched| ==> fetched[j].id != 1 {
      MergeKeeps(map[1 := Staff], fetched, 1);
    }
    if i < |fetched| && (forall j :: i < j < |fetched| ==> fetched[j].id != fetched[i].id) {
      MergeLastWins(map[1 := Staff], fetched, i);
    }
  }

  /** What `fetchAllDepartments()` gives: the cached list with its DNs;
      without a cache, nothing when the API call failed, and otherwise the
      table in id order, renamed, with its DNs. None where a DN walk meets a
      missing department. */
  function DepartmentsOf(cached: Option<seq<Dept>>, fetched: Option<seq<Dept>>): Option<seq<Dept>>
  {
    if cached.Some? then Placed(cached.value)
    else if fetched.None? then Some([])
    else Placed(Renamed(ValuesInKeyOrder(Table(fetched.value))))
  }

  /** `fetchAllDepartments()`. A cached list is used as it is; without one, a
      failed API call gives the empty list, and otherwise the table is taken
      out in id order and its names made unique. Either way every department
      then gets its DN; None where the walk meets a `parentid` with no
      department (the source throws there). The walk must end: a cycle of
      `parentid` links makes the source loop forever. A cached list is in
      ascending id order because the program wrote it from `Object.values`. */
  method FetchAllDepartments(cached: Option<seq<Dept>>, fetched: Option<seq<Dept>>) returns (r: Option<seq<Dept>>)
    requires cached.Some? ==> Ascending(cached.value) && WalksEnd(cached.value)
    requires cached.None? && fetched.Some? ==> WalksEnd(ValuesInKeyOrder(Table(fetched.value)))
    ensures cached.None? && fetched.None? ==> r == Some([])
    ensures cached.Some? ==>
              (r.None? <==> exists i :: 0 <= i < |cached.value| && DnOf(MapOf(cached.value), cached.value[i], |cached.value|).None?)
    ensures cached.Some? && r.Some? ==>
              |r.value| == |cached.value| &&
              forall i :: 0 <= i < |cached.value| ==>
                r.value[i] == cached.value[i].(dn := DnOf(MapOf(cached.value), cached.value[i], |cached.value|).value)
    ensures cached.None? && fetched.Some? && r.Some? ==>
              SameLinks(ValuesInKeyOrder(Table(fetched.value)), r.value) && DistinctNames(r.value)
    ensures r.Some? ==> Ascending(r.value) && Closes(MapOf(r.value)) && ParentsClosed(MapOf(r.value))
    ensures r == DepartmentsOf(cached, fetched)
  {
    if cached.Some? {
      r := AssignDNs(cached.value);
      if r.Some? {
        PlacedTable(cached.value, r.value);
      }
    } else if fetched.None? {
      r := Some([]);
    } else {
      var values := ValuesInKeyOrder(Table(fetched.value));
      var named;
      r, named := NameAndPlace(values);
      if r.Some? {
        SameLinksKeep(values, r.value);
      }
    }
  }

  // ---------------------------------------------------------------------------
  // fetchAllUsers

  /** `fetchDepartmentUsers(department)`: the department's users, each
      tagged with the department. */
  function DepartmentUsers(d: Dept, usersOf: Dept -> seq<User>): seq<User>
  {
    seq(|usersOf(d)|, k requires 0 <= k < |usersOf(d)| => usersOf(d)[k].(firstDepartment := d))
  }

  /** The users of the first `n` departments, department after department. */
  function Listed(ds: seq<Dept>, usersOf: Dept -> seq<User>, n: nat): seq<User>
    requires n <= |ds|
  {
    if n == 0 then [] else Listed(ds, usersOf, n - 1) + DepartmentUsers(ds[n - 1], usersOf)
  }

  /** A listed user is a user of one of the departments, tagged with that
      department, and every such user is listed. */
  lemma {:induction false} ListedMembers(ds: seq<Dept>, usersOf: Dept -> seq<User>, n: nat, u: User)
    requires n <= |ds|
    ensures u in Listed(ds, usersOf, n) <==>
              exists i, v :: 0 <= i < n && v in usersOf(ds[i]) && u == v.(firstDepartment := ds[i])
  {
    if n > 0 {
      ListedMembers(ds, usersOf, n - 1, u);
      var d := ds[n - 1];
      if u in DepartmentUsers(d, usersOf) {
        var k :| 0 <= k < |usersOf(d)| && DepartmentUsers(d, usersOf)[k] == u;
        assert usersOf(d)[k] in usersOf(ds[n - 1]);
      }
      if exists v :: v in usersOf(d) && u == v.(firstDepartment := d) {
        var v :| v in usersOf(d) && u == v.(firstDepartment := d);
        var k :| 0 <= k < |usersOf(d)| && usersOf(d)[k] == v;
        assert DepartmentUsers(d, usersOf)[k] == u;
      }
    }
  }

  /** `fetchAllUsers(departments)`: a cached list as it is; otherwise, with
      at least one department, the users of every department in order, those
      without an address dropped; with no department and no cache, null. */
  method FetchAllUsers(departments: seq<Dept>, cached: Option<seq<User>>, usersOf: Dept -> seq<User>)
      returns (r: Option<seq<User>>)
    ensures cached.Some? ==> r == cached
    ensures cached.None? && |departments| == 0 ==> r.None?
    ensures cached.None? && |departments| > 0 ==> r == Some(WithEmail(Listed(departments, usersOf, |departments|)))
  {
    if cached.Some? {
      return cached;
    }
    if |departments| == 0 {
      return None;
    }
    var all: seq<User> := [];
    for i := 0 to |departments|
      invariant all == Listed(departments, usersOf, i)
    {
      all := all + DepartmentUsers(departments[i], usersOf);
    }
    r := Some(WithEmail(all));
  }

  // ---------------------------------------------------------------------------
  // The person entry of a user

  /** The attributes `reloadFromDingtalkServer` gives `makePersonEntry` for a
      user. */
  function PersonAttrs(pinyinOf: string -> string, u: User): (r: Attributes)
    ensures r.Keys == {"uid", "title", "mobileTelephoneNumber", "pinyin", "cn", "givenName", "sn", "mail", "avatarurl", "remark"}
  {
    var (givenName, sn) := ParseName(u.name);
    map["uid" := Str(u.userid),
        "title" := Str(u.position),
        "mobileTelephoneNumber" := Str(u.mobile),
        "pinyin" := Str(if u.remark != "" then u.remark else pinyinOf(u.name)),
        "cn" := Str(u.name),
        "givenName" := Str(givenName),
        "sn" := Str(sn),
        "mail" := Str(Mail(u)),
        "avatarurl" := Str(u.avatar),
        "remark" := Str(u.remark)]
  }

  function AttrsOf(pinyinOf: string -> string): User -> Attributes
  {
    u => PersonAttrs(pinyinOf, u)
  }

  /** The attributes leave `memberOf` to the enrolment. */
  lemma AttrsOfNoMemberOf(pinyinOf: string -> string)
    ensures forall u :: "memberOf" !in AttrsOf(pinyinOf)(u)
  {
    forall u ensures "memberOf" !in AttrsOf(pinyinOf)(u) {
      assert AttrsOf(pinyinOf)(u) == PersonAttrs(pinyinOf, u);
    }
  }

  /** What the attributes hold: the lower-case address, the remark (or
      else the pinyin of the name) as `pinyin`, and a split of the name that
      puts it back together. */
  lemma PersonAttrsMeaning(pinyinOf: string -> string, u: User)
    ensures var a := PersonAttrs(pinyinOf, u);
            && a["mail"] == Str(Mail(u)) && Lower(Mail(u)) == Mail(u)
            && a["uid"] == Str(u.userid) && a["cn"] == Str(u.name)
            && a["pinyin"] == Str(if u.remark != "" then u.remark else pinyinOf(u.name))
            && (IndexOf(u.name, ' ') > 0 ==> a["givenName"].s + " " + a["sn"].s == u.name && ' ' !in a["sn"].s)
            && (IndexOf(u.name, ' ') <= 0 ==> a["sn"].s + a["givenName"].s == u.name && |a["sn"].s| <= 1)
  {
    MailLower(u);
    ParseNameMeaning(u.name);
  }

  /** The DN of a user's person entry: the lower-case address, then the DN
      of the user's first department, under People. */
  lemma PersonEntryDNMeaning(c: Config, u: User)
    ensures PersonEntryDN(c, u) == "mail=" + Mail(u) + "," + u.firstDepartment.dn + ",ou=People,o=" + c.organization + "," + c.rootDN
    ensures Lower(Mail(u)) == Mail(u)
  {
    MailLower(u);
  }

  /** A user's person entry keeps every attribute given above and lists as
      `memberOf` the groups of every department of the user and of their
      ancestors. */
  lemma PersonEntryMeaning(c: Config, m: map<nat, Dept>, pinyinOf: string -> string, u: User, random: string, y: string)
    ensures var a := PersonShape(c, m, GroupDns(c, m), u, PersonAttrs(pinyinOf, u), random).1;
            && (forall k :: k in PersonAttrs(pinyinOf, u) ==> k in a && a[k] == PersonAttrs(pinyinOf, u)[k])
            && (y in ListOf(a, "memberOf") <==> exists x :: x in Walk(m, u.department, |u.department|) && y == GroupDns(c, m)[x])
  {
    var attrs := PersonAttrs(pinyinOf, u);
    assert "memberOf" !in attrs;
    PersonMemberOfs(c, m, u, attrs, random, y);
  }

  // ---------------------------------------------------------------------------
  // The user selection

  /** The two filters of the reload: the first record of each `userid` if
      active, then only users with an address. */
  function Selected(users: seq<User>): seq<User>
  {
    WithEmail(ActiveFirst(users, false))
  }

  /** A user is selected iff it has an address and is the first record of
      its `userid` and active; no two selected users share a `userid`. */
  lemma SelectedMeaning(users: seq<User>, u: User)
    ensures u in Selected(users) <==> HasEmail(u) && exists i :: 0 <= i < |users| && users[i] == u && FirstOccurrence(users, i) && u.active
    ensures UniqueIds(Selected(users))
  {
    ActiveFirstMembers(users, false, u);
    DropLaterUnique(users);
    WithEmailUnique(ActiveFirst(users, false));
  }

  // ---------------------------------------------------------------------------
  // The provider's state and the reload

  /** The module-level lists of dingtalk.js. */
  class Provider {
    var allLDAPUsers: seq<Entry>
    var allLDAPOrgUnits: seq<Entry>
    var allLDAPGroups: seq<Entry>
    var allLDAPEntries: seq<Entry>

    constructor ()
      ensures allLDAPUsers == [] && allLDAPOrgUnits == [] && allLDAPGroups == [] && allLDAPEntries == []
    {
      allLDAPUsers := [];
      allLDAPOrgUnits := [];
      allLDAPGroups := [];
      allLDAPEntries := [];
    }

    /** `getAllLDAPEntries()`. */
    function GetAllLDAPEntries(): (r: seq<Entry>)
      reads this
      ensures r == allLDAPEntries
    {
      allLDAPEntries
    }

    /** The end of `reloadFromDingtalkServer()` once the departments and
        the selected users are known: the entries, and the lists stored. */
    method Publish(c: Config, ds: seq<Dept>, chosen: seq<User>, pinyinOf: string -> string, randomOf: nat -> string)
      requires Ascending(ds) && Closes(MapOf(ds)) && ParentsClosed(MapOf(ds))
      modifies this
      ensures Publishes(c, ds, chosen, AttrsOf(pinyinOf), randomOf, allLDAPGroups, allLDAPOrgUnits, allLDAPUsers)
      ensures allLDAPEntries == allLDAPGroups + allLDAPOrgUnits + allLDAPUsers
    {
      AttrsOfNoMemberOf(pinyinOf);
      var groups, units, persons := BuildDirectory(c, ds, chosen, AttrsOf(pinyinOf), randomOf);
      Store(groups, units, persons);
    }

    /** `allLDAPEntries = [].concat(allLDAPGroups, allLDAPOrgUnits,
        allLDAPUsers)` after the three lists are stored. */
    method Store(groups: seq<Entry>, units: seq<Entry>, persons: seq<Entry>)
      modifies this
      ensures allLDAPGroups == groups && allLDAPOrgUnits == units && allLDAPUsers == persons
      ensures Shapes(groups) == old(Shapes(groups)) && Shapes(units) == old(Shapes(units)) && Shapes(persons) == old(Shapes(persons))
      ensures allLDAPEntries == allLDAPGroups + allLDAPOrgUnits + allLDAPUsers
    {
      allLDAPOrgUnits := units;
      allLDAPGroups := groups;
      allLDAPUsers := persons;
      allLDAPEntries := groups + units + persons;
    }

    /** `reloadFromDingtalkServer()`. `deps` is what `fetchAllDepartments`
        returned (None where it threw) and `selected` the users the two
        filters kept. A throw leaves the lists as the source leaves them:
        untouched when the DN walk fails; with no department and no cached
        users, `fetchAllUsers` returns null after the (empty) unit and group
        lists were stored, and the filter on it throws. A cached department
        list is in ascending id order, as the program wrote it. */
    method Reload(c: Config, cachedDeps: Option<seq<Dept>>, fetched: Option<seq<Dept>>,
                  cachedUsers: Option<seq<User>>, usersOf: Dept -> seq<User>,
                  pinyinOf: string -> string, randomOf: nat -> string)
        returns (ok: bool, ghost deps: Option<seq<Dept>>, ghost selected: seq<User>)
      requires cachedDeps.Some? ==> Ascending(cachedDeps.value) && WalksEnd(cachedDeps.value)
      requires cachedDeps.None? && fetched.Some? ==> WalksEnd(ValuesInKeyOrder(Table(fetched.value)))
      modifies this
      ensures deps == DepartmentsOf(cachedDeps, fetched)
      ensures deps.None? ==> !ok && unchanged(this)
      ensures deps.Some? && !ok ==>
                deps.value == [] && cachedUsers.None? &&
                allLDAPOrgUnits == [] && allLDAPGroups == [] &&
                allLDAPUsers == old(allLDAPUsers) && allLDAPEntries == old(allLDAPEntries)
      ensures ok ==> deps.Some?
      ensures ok && cachedUsers.Some? ==> selected == Selected(cachedUsers.value)
      ensures ok && cachedUsers.None? ==> selected == Selected(WithEmail(Listed(deps.value, usersOf, |deps.value|)))
      ensures ok ==> Publishes(c, deps.value, selected, AttrsOf(pinyinOf), randomOf, allLDAPGroups, allLDAPOrgUnits, allLDAPUsers)
      ensures ok ==> allLDAPEntries == allLDAPGroups + allLDAPOrgUnits + allLDAPUsers
    {
      var found := FetchAllDepartments(cachedDeps, fetched);
      deps := found;
      selected := [];
      if found.None? {
        return false, deps, selected;
      }
      var ds := found.value;
      var users := FetchAllUsers(ds, cachedUsers, usersOf);
      if users.None? {
        allLDAPOrgUnits := [];
        allLDAPGroups := [];
        return false, deps, selected;
      }
      var kept := FilterActive(users.value, false);
      var chosen := WithEmail(kept);
      selected := chosen;
      Publish(c, ds, chosen, pinyinOf, randomOf);
      ok := true;
    }
  }
}
