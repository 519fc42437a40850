/** The directory-building half of `reloadFromDingtalkServer` and
    `reloadFromWeComServer` (lib/providers/dingtalk.js, lib/providers/wecom.js),
    which the two providers share line for line: one organizational unit and
    one group per department, the group hierarchy mirrored from the
    `parentid` links, and every person recorded in the group of each of its
    departments and of every ancestor department. */
module Roster {
  import opened Common
  import opened Entries
  import opened Ldap
  import opened Departments
  import opened People

  /** `{groupid: d.id}`, the extra attribute of both entries of a department. */
  function GroupId(d: Dept): Attributes
  {
    map["groupid" := Num(d.id)]
  }

  /** The organizational unit of a department, as (dn, attributes). */
  function UnitShape(c: Config, d: Dept): (string, Attributes)
  {
    (OrganizationUnitEntryDN(c, d.dn), OrganizationUnitAttributes(d.dn, d.name, GroupId(d)))
  }

  /** The group of a department as first built, as (dn, attributes). */
  function GroupShape(c: Config, d: Dept): (string, Attributes)
  {
    (GroupEntryDN(c, d.dn), GroupAttributes(d.dn, d.name, [], GroupId(d)))
  }

  function UnitShapes(c: Config, deps: seq<Dept>): (r: seq<(string, Attributes)>)
    ensures |r| == |deps|
  {
    seq(|deps|, k requires 0 <= k < |deps| => UnitShape(c, deps[k]))
  }

  function GroupShapes(c: Config, deps: seq<Dept>): (r: seq<(string, Attributes)>)
    ensures |r| == |deps|
  {
    seq(|deps|, k requires 0 <= k < |deps| => GroupShape(c, deps[k]))
  }

  /** What each department contributes: an organizational unit under People
      and a group under Groups, both named after it, carrying its id and its
      un-prefixed DN; the group starts with no members and no parents. */
  lemma DepartmentEntries(c: Config, deps: seq<Dept>, k: nat)
    requires k < |deps|
    ensures var (dn, a) := UnitShape(c, deps[k]);
            && dn == deps[k].dn + ",ou=People,o=" + c.organization + "," + c.rootDN
            && a["groupid"] == Num(deps[k].id) && a["ou"] == Str(deps[k].name) && a["entryDN"] == Str(deps[k].dn)
            && a["objectclass"] == Strs(["organizationalUnit", "top"])
    ensures var (dn, a) := GroupShape(c, deps[k]);
            && dn == deps[k].dn + ",ou=Groups,o=" + c.organization + "," + c.rootDN
            && a["groupid"] == Num(deps[k].id) && a["cn"] == Str(deps[k].name) && a["ou"] == Str(deps[k].name)
            && a["member"] == Strs([]) && a["memberOf"] == Strs([]) && a["entryDN"] == Str(deps[k].dn)
  {
  }

  // ---------------------------------------------------------------------------
  // Building the entries

  /** The `allLDAPOrgUnits` pass. The `allDepartmentsMap` it fills on the
      side is `MapOf(deps)`. */
  method BuildUnits(c: Config, deps: seq<Dept>) returns (units: seq<Entry>)
    ensures Shapes(units) == UnitShapes(c, deps)
    ensures forall k :: 0 <= k < |units| ==> fresh(units[k])
  {
    units := [];
    for i := 0 to |deps|
      invariant Shapes(units) == UnitShapes(c, deps)[..i]
      invariant forall k :: 0 <= k < |units| ==> fresh(units[k])
    {
      var e := MakeOrganizationUnitEntry(c, deps[i].dn, deps[i].name, GroupId(deps[i]));
      assert Shapes(units + [e]) == Shapes(units) + [(e.dn, e.attributes)];
      FreshSnoc(units, e);
      units := units + [e];
    }
    assert UnitShapes(c, deps)[..|deps|] == UnitShapes(c, deps);
  }

  /** The `allLDAPGroups` pass. The `allLDAPGroupsMap` it fills on the side
      is `GroupsById(deps, groups)`. */
  method BuildGroups(c: Config, deps: seq<Dept>) returns (groups: seq<Entry>)
    ensures Shapes(groups) == GroupShapes(c, deps)
    ensures forall k :: 0 <= k < |groups| ==> fresh(groups[k])
    ensures forall j, k :: 0 <= j < k < |groups| ==> groups[j] != groups[k]
  {
    groups := [];
    for i := 0 to |deps|
      invariant Shapes(groups) == GroupShapes(c, deps)[..i]
      invariant forall k :: 0 <= k < |groups| ==> fresh(groups[k])
      invariant forall j, k :: 0 <= j < k < |groups| ==> groups[j] != groups[k]
    {
      var g := MakeGroupEntry(c, deps[i].dn, deps[i].name, [], GroupId(deps[i]));
      assert Shapes(groups + [g]) == Shapes(groups) + [(g.dn, g.attributes)];
      FreshSnoc(groups, g);
      groups := groups + [g];
    }
    assert GroupShapes(c, deps)[..|deps|] == GroupShapes(c, deps);
  }

  /** `allLDAPGroupsMap[d.id] = g` for each department and its group in
      turn: a later department with the same id takes the slot. */
  function GroupsById(deps: seq<Dept>, groups: seq<Entry>): (r: map<nat, Entry>)
    requires |deps| == |groups|
    ensures r.Keys == Ids(deps)
    decreases |deps|
  {
    if |deps| == 0 then map[]
    else
      var n := |deps| - 1;
      GroupsById(deps[..n], groups[..n])[deps[n].id := groups[n]]
  }

  /** With distinct ids every department's own group sits under its id. */
  lemma {:induction false} GroupsByIdAscending(deps: seq<Dept>, groups: seq<Entry>)
    requires |deps| == |groups| && Ascending(deps)
    ensures forall k :: 0 <= k < |deps| ==> GroupsById(deps, groups)[deps[k].id] == groups[k]
    decreases |deps|
  {
    if |deps| > 0 {
      var n := |deps| - 1;
      var front, gfront := deps[..n], groups[..n];
      assert Ascending(front) by {
        forall i, j | 0 <= i < j < n ensures front[i].id < front[j].id {
          assert front[i] == deps[i] && front[j] == deps[j];
        }
      }
      GroupsByIdAscending(front, gfront);
      var t := GroupsById(front, gfront);
      assert GroupsById(deps, groups) == t[deps[n].id := groups[n]];
      forall k | 0 <= k < n ensures t[deps[n].id := groups[n]][deps[k].id] == groups[k] {
        assert front[k] == deps[k] && gfront[k] == groups[k];
        assert deps[k].id < deps[n].id;
      }
    }
  }

  /** No two departments share a group object. */
  predicate Injective(groupOf: map<nat, Entry>)
  {
    forall a, b :: a in groupOf && b in groupOf && a != b ==> groupOf[a] != groupOf[b]
  }

  /** Distinct ids and distinct group objects: the table maps no two
      departments to the same group. */
  lemma GroupsByIdInjective(deps: seq<Dept>, groups: seq<Entry>)
    requires |deps| == |groups| && Ascending(deps)
    requires forall j, k :: 0 <= j < k < |groups| ==> groups[j] != groups[k]
    ensures Injective(GroupsById(deps, groups))
    ensures forall id :: id in GroupsById(deps, groups) ==> GroupsById(deps, groups)[id] in groups
  {
    var t := GroupsById(deps, groups);
    GroupsByIdAscending(deps, groups);
    forall a, b | a in t && b in t && a != b ensures t[a] != t[b] {
      var j, k := IdIndex(deps, a), IdIndex(deps, b);
      assert t[a] == groups[j] && t[b] == groups[k];
    }
    forall id | id in t ensures t[id] in groups {
      var j := IdIndex(deps, id);
      assert t[id] == groups[j];
    }
  }

  // ---------------------------------------------------------------------------
  // Group states

  /** The group objects hold exactly the attributes of table `s`. */
  predicate Holds(groupOf: map<nat, Entry>, s: map<nat, Attributes>)
    reads groupOf.Values
  {
    groupOf.Keys == s.Keys && forall id :: id in groupOf ==> groupOf[id].attributes == s[id]
  }

  /** The DN of every department's group, by department id. */
  function Dns(groupOf: map<nat, Entry>): (r: map<nat, string>)
    ensures r.Keys == groupOf.Keys
  {
    map id | id in groupOf :: groupOf[id].dn
  }

  /** Every group has both membership lists. */
  predicate GroupLists(s: map<nat, Attributes>)
  {
    forall id :: id in s ==> HasList(s[id], "member") && HasList(s[id], "memberOf")
  }

  /** Every group has only grown. */
  predicate AllGrown(s0: map<nat, Attributes>, s1: map<nat, Attributes>)
  {
    s1.Keys == s0.Keys && forall id :: id in s0 ==> Grown(s0[id], s1[id])
  }

  lemma AllGrownTransitive(s0: map<nat, Attributes>, s1: map<nat, Attributes>, s2: map<nat, Attributes>)
    requires AllGrown(s0, s1) && AllGrown(s1, s2)
    ensures AllGrown(s0, s2)
  {
    forall id | id in s0 ensures Grown(s0[id], s2[id]) {
      GrownTransitive(s0[id], s1[id], s2[id]);
    }
  }

  lemma AllGrownReflexive(s: map<nat, Attributes>)
    ensures AllGrown(s, s)
  {
    forall id | id in s ensures Grown(s[id], s[id]) {
      GrownReflexive(s[id]);
    }
  }

  /** Growing keeps both lists. */
  lemma GrownLists(s0: map<nat, Attributes>, s1: map<nat, Attributes>)
    requires GroupLists(s0) && AllGrown(s0, s1)
    ensures GroupLists(s1)
  {
  }

  // ---------------------------------------------------------------------------
  // The group hierarchy

  /** A department with a truthy parent id, both of whose groups exist. */
  predicate Linkable(s: map<nat, Attributes>, dns: map<nat, string>, d: Dept)
  {
    d.parent != 0 && d.parent in s && d.id in s && d.parent in dns && d.id in dns
  }

  /** The department's group is in its parent group's `member` list and the
      parent group in its own `memberOf` list. */
  predicate Linked(s: map<nat, Attributes>, dns: map<nat, string>, d: Dept)
  {
    && d.parent in s && d.id in s && d.parent in dns && d.id in dns
    && dns[d.id] in ListOf(s[d.parent], "member")
    && dns[d.parent] in ListOf(s[d.id], "memberOf")
  }

  /** One step of the hierarchy pass: a department with a parent has its
      group recorded as a member of the parent's group. */
  function LinkOne(s: map<nat, Attributes>, dns: map<nat, string>, d: Dept): (r: map<nat, Attributes>)
    ensures r.Keys == s.Keys
  {
    if Linkable(s, dns, d) then
      var s1 := s[d.parent := WithMember(s[d.parent], dns[d.id])];
      s1[d.id := WithMemberOf(s1[d.id], dns[d.parent])]
    else s
  }

  /** The hierarchy pass over the first `n` departments of a list. */
  function LinkAll(s: map<nat, Attributes>, dns: map<nat, string>, deps: seq<Dept>, n: nat): (r: map<nat, Attributes>)
    requires n <= |deps|
    ensures r.Keys == s.Keys
  {
    if n == 0 then s else LinkOne(LinkAll(s, dns, deps, n - 1), dns, deps[n - 1])
  }

  lemma LinkOneGrown(s: map<nat, Attributes>, dns: map<nat, string>, d: Dept)
    requires GroupLists(s)
    ensures AllGrown(s, LinkOne(s, dns, d))
  {
    var r := LinkOne(s, dns, d);
    forall id | id in s ensures Grown(s[id], r[id]) {
      if Linkable(s, dns, d) {
        var a1 := if id == d.parent then WithMember(s[id], dns[d.id]) else s[id];
        assert Grown(s[id], a1);
        if id == d.id {
          assert r[id] == WithMemberOf(a1, dns[d.parent]);
          GrownTransitive(s[id], a1, r[id]);
        } else {
          assert r[id] == a1;
        }
      } else {
        GrownReflexive(s[id]);
      }
    }
  }

  lemma LinkedGrown(s0: map<nat, Attributes>, s1: map<nat, Attributes>, dns: map<nat, string>, d: Dept)
    requires Linked(s0, dns, d) && AllGrown(s0, s1)
    ensures Linked(s1, dns, d)
  {
    GrownKeeps(s0[d.parent], s1[d.parent], "member", dns[d.id]);
    GrownKeeps(s0[d.id], s1[d.id], "memberOf", dns[d.parent]);
  }

  lemma LinkOneKeeps(s: map<nat, Attributes>, dns: map<nat, string>, d: Dept, e: Dept)
    requires GroupLists(s) && Linked(s, dns, e)
    ensures Linked(LinkOne(s, dns, d), dns, e)
  {
    LinkOneGrown(s, dns, d);
    LinkedGrown(s, LinkOne(s, dns, d), dns, e);
  }

  lemma LinkOneLinks(s: map<nat, Attributes>, dns: map<nat, string>, d: Dept)
    requires GroupLists(s) && Linkable(s, dns, d)
    ensures Linked(LinkOne(s, dns, d), dns, d)
  {
    var s1 := s[d.parent := WithMember(s[d.parent], dns[d.id])];
    var r := LinkOne(s, dns, d);
    assert r == s1[d.id := WithMemberOf(s1[d.id], dns[d.parent])];
    assert HasList(s1[d.id], "memberOf");
    if d.id != d.parent {
      assert r[d.parent] == s1[d.parent];
    } else {
      GrownKeeps(s1[d.id], r[d.id], "member", dns[d.id]);
    }
  }

  /** The hierarchy pass only appends to membership lists. */
  lemma {:induction false} LinkAllGrown(s: map<nat, Attributes>, dns: map<nat, string>, deps: seq<Dept>, n: nat)
    requires GroupLists(s) && n <= |deps|
    ensures AllGrown(s, LinkAll(s, dns, deps, n)) && GroupLists(LinkAll(s, dns, deps, n))
  {
    if n > 0 {
      var front := LinkAll(s, dns, deps, n - 1);
      LinkAllGrown(s, dns, deps, n - 1);
      LinkOneGrown(front, dns, deps[n - 1]);
      AllGrownTransitive(s, front, LinkAll(s, dns, deps, n));
      GrownLists(s, LinkAll(s, dns, deps, n));
    }
  }

  /** After the pass, every department with a truthy parent id has its
      group in the parent group's `member` list and the parent group in its
      own `memberOf` list. */
  lemma {:induction false} LinkAllRecords(s: map<nat, Attributes>, dns: map<nat, string>, deps: seq<Dept>, n: nat, k: nat)
    requires GroupLists(s) && k < n <= |deps| && Linkable(s, dns, deps[k])
    ensures Linked(LinkAll(s, dns, deps, n), dns, deps[k])
    decreases n, 1
  {
    if k < n - 1 {
      LinkAllRecordsEarlier(s, dns, deps, n, k);
    } else {
      LinkAllLists(s, dns, deps, n - 1);
      LinkOneLinks(LinkAll(s, dns, deps, n - 1), dns, deps[n - 1]);
    }
  }

  lemma {:induction false} LinkAllRecordsEarlier(s: map<nat, Attributes>, dns: map<nat, string>, deps: seq<Dept>, n: nat, k: nat)
    requires GroupLists(s) && k < n - 1 && n <= |deps| && Linkable(s, dns, deps[k])
    ensures Linked(LinkAll(s, dns, deps, n), dns, deps[k])
    decreases n, 0
  {
    LinkAllLists(s, dns, deps, n - 1);
    LinkAllRecords(s, dns, deps, n - 1, k);
    LinkOneKeeps(LinkAll(s, dns, deps, n - 1), dns, deps[n - 1], deps[k]);
  }

  /** The pass keeps both lists on every group. */
  lemma LinkAllLists(s: map<nat, Attributes>, dns: map<nat, string>, deps: seq<Dept>, n: nat)
    requires GroupLists(s) && n <= |deps|
    ensures GroupLists(LinkAll(s, dns, deps, n))
  {
    LinkAllGrown(s, dns, deps, n);
  }

  /** The body of the hierarchy pass for one department: with a truthy
      `parentid`, `addMemberToGroup(allLDAPGroupsMap[dep.id],
      allLDAPGroupsMap[parentDep.id])`. */
  method LinkToParent(depsMap: map<nat, Dept>, groupOf: map<nat, Entry>, dep: Dept, ghost s: map<nat, Attributes>)
    requires KeyedById(depsMap) && dep.id in depsMap
    requires dep.parent != 0 ==> dep.parent in depsMap
    requires groupOf.Keys == depsMap.Keys && Injective(groupOf)
    requires Holds(groupOf, s) && GroupLists(s)
    modifies groupOf.Values
    ensures Holds(groupOf, LinkOne(s, Dns(groupOf), dep))
  {
    if dep.parent != 0 {
      var parentDep := depsMap[dep.parent];
      var child, parent := groupOf[dep.id], groupOf[parentDep.id];
      ghost var dns := Dns(groupOf);
      ghost var s1 := s[dep.parent := WithMember(s[dep.parent], dns[dep.id])];
      ghost var s2 := s1[dep.id := WithMemberOf(s1[dep.id], dns[dep.parent])];
      AddMemberToGroup(child, parent);
      forall id | id in groupOf ensures groupOf[id].attributes == s2[id] {
        if id != dep.id && id != dep.parent {
          assert groupOf[id] != child && groupOf[id] != parent;
        }
      }
    }
  }

  /** `Object.values(allDepartmentsMap).forEach(...)`: each department with
      a truthy `parentid` has its group added to the parent's group, in
      ascending id order. */
  method LinkHierarchy(depsMap: map<nat, Dept>, groupOf: map<nat, Entry>, ghost s: map<nat, Attributes>)
    requires KeyedById(depsMap) && ParentsClosed(depsMap)
    requires groupOf.Keys == depsMap.Keys && Injective(groupOf)
    requires Holds(groupOf, s) && GroupLists(s)
    modifies groupOf.Values
    ensures Holds(groupOf, LinkAll(s, Dns(groupOf), ValuesInKeyOrder(depsMap), |depsMap|))
  {
    var deps := ValuesInKeyOrder(depsMap);
    for i := 0 to |deps|
      invariant Holds(groupOf, LinkAll(s, Dns(groupOf), deps, i))
    {
      LinkAllLists(s, Dns(groupOf), deps, i);
      LinkToParent(depsMap, groupOf, deps[i], LinkAll(s, Dns(groupOf), deps, i));
    }
  }

  // ---------------------------------------------------------------------------
  // Enrolling a person in the groups of its departments and their ancestors

  /** The departments whose groups the walk from `id` visits: `id` itself,
      then its parent, and so on, up to a falsy id or an id with no
      department. */
  function Lineage(m: map<nat, Dept>, id: nat, fuel: nat): (r: seq<nat>)
    ensures forall x :: x in r ==> x in m && x != 0
    decreases fuel
  {
    if id == 0 || id !in m || fuel == 0 then [] else [id] + Lineage(m, m[id].parent, fuel - 1)
  }

  /** The walk is the parent chain: it starts at `id` when `id` names a
      department, and each id after the first is the parent of the one
      before. */
  lemma {:induction false} LineageChain(m: map<nat, Dept>, id: nat, fuel: nat)
    ensures var r := Lineage(m, id, fuel);
            && (id != 0 && id in m && fuel > 0 ==> |r| > 0 && r[0] == id)
            && forall k :: 0 < k < |r| ==> r[k] == m[r[k - 1]].parent
    decreases fuel
  {
    if id != 0 && id in m && fuel > 0 {
      var rest := Lineage(m, m[id].parent, fuel - 1);
      LineageChain(m, m[id].parent, fuel - 1);
      assert Lineage(m, id, fuel) == [id] + rest;
    }
  }

  /** When the chain ends within the fuel, the walk misses no ancestor: the
      parent of every department on it is on it too, unless that parent is
      falsy or has no department. */
  lemma {:induction false} LineageClosed(m: map<nat, Dept>, id: nat, fuel: nat, x: nat)
    requires EndsWithin(Parents(m), id, fuel)
    requires x in Lineage(m, id, fuel)
    ensures m[x].parent != 0 && m[x].parent in m ==> m[x].parent in Lineage(m, id, fuel)
    decreases fuel
  {
    var links := Parents(m);
    var rest := Lineage(m, m[id].parent, fuel - 1);
    assert Lineage(m, id, fuel) == [id] + rest;
    assert links[id] == m[id].parent;
    if x != id {
      LineageClosed(m, m[id].parent, fuel - 1, x);
    } else if m[x].parent != 0 && m[x].parent in m {
      assert fuel - 1 > 0;
      assert rest == [m[x].parent] + Lineage(m, m[m[x].parent].parent, fuel - 2);
    }
  }

  /** The walks of all of a user's departments, one after the other. */
  function Walk(m: map<nat, Dept>, depIds: seq<nat>, n: nat): (r: seq<nat>)
    requires n <= |depIds|
    ensures forall x :: x in r ==> x in m && x != 0
  {
    if n == 0 then [] else Walk(m, depIds, n - 1) + Lineage(m, depIds[n - 1], |m| + 1)
  }

  /** An id is walked iff it is on the walk of one of the departments. */
  lemma {:induction false} WalkMembers(m: map<nat, Dept>, depIds: seq<nat>, n: nat, x: nat)
    requires n <= |depIds|
    ensures x in Walk(m, depIds, n) <==> exists k :: 0 <= k < n && x in Lineage(m, depIds[k], |m| + 1)
  {
    if n > 0 {
      WalkMembers(m, depIds, n - 1, x);
    }
  }

  /** Enrolment reaches every listed department and every ancestor of one:
      with no cycle in the `parentid` links, each listed department that
      exists, and the parent of every walked department, is walked. */
  lemma WalkReachesAncestors(m: map<nat, Dept>, depIds: seq<nat>, k: nat, x: nat)
    requires Closes(m) && k < |depIds|
    ensures depIds[k] != 0 && depIds[k] in m ==> depIds[k] in Walk(m, depIds, |depIds|)
    ensures x in Lineage(m, depIds[k], |m| + 1) && m[x].parent != 0 && m[x].parent in m ==>
              m[x].parent in Walk(m, depIds, |depIds|)
  {
    var id := depIds[k];
    LineageChain(m, id, |m| + 1);
    if id != 0 && id in m {
      assert Parents(m)[id] == m[id].parent;
      assert EndsWithin(Parents(m), id, |m| + 1);
      WalkMembers(m, depIds, |depIds|, id);
      if x in Lineage(m, id, |m| + 1) && m[x].parent != 0 && m[x].parent in m {
        LineageClosed(m, id, |m| + 1, x);
        WalkMembers(m, depIds, |depIds|, m[x].parent);
      }
    }
  }

  /** The group table once the person with DN `pdn` is recorded in the
      `member` list of every group on `ids`. */
  function Joined(s: map<nat, Attributes>, pdn: string, ids: seq<nat>): (r: map<nat, Attributes>)
    ensures r.Keys == s.Keys
  {
    map id | id in s :: if id in ids then WithMember(s[id], pdn) else s[id]
  }

  /** The person is in a group's `member` list afterwards iff the group was
      walked or already listed the person; other groups are untouched. */
  lemma JoinedMembers(s: map<nat, Attributes>, pdn: string, ids: seq<nat>, id: nat)
    requires id in s
    ensures pdn in ListOf(Joined(s, pdn, ids)[id], "member") <==> id in ids || pdn in ListOf(s[id], "member")
    ensures id !in ids ==> Joined(s, pdn, ids)[id] == s[id]
    ensures HasList(s[id], "member") ==> Grown(s[id], Joined(s, pdn, ids)[id])
  {
    if id in ids {
      assert ListOf(WithMember(s[id], pdn), "member") == AddOnce(ListOf(s[id], "member"), pdn);
    }
  }

  lemma JoinedNone(s: map<nat, Attributes>, pdn: string)
    ensures Joined(s, pdn, []) == s
  {
  }

  /** One more walked group. */
  lemma JoinedSnoc(s: map<nat, Attributes>, pdn: string, ids: seq<nat>, x: nat)
    requires GroupLists(s) && x in s
    ensures Joined(s, pdn, ids + [x]) == Joined(s, pdn, ids)[x := WithMember(Joined(s, pdn, ids)[x], pdn)]
  {
    var t := Joined(s, pdn, ids);
    if x in ids {
      assert t[x] == WithMember(s[x], pdn);
      assert WithMember(t[x], pdn) == t[x];
    }
  }

  /** Recording membership keeps both lists of every group. */
  lemma JoinedLists(s: map<nat, Attributes>, pdn: string, ids: seq<nat>)
    requires GroupLists(s)
    ensures GroupLists(Joined(s, pdn, ids))
  {
  }

  /** The DNs of the groups on `ids`, in walking order. */
  function DnsAlong(dns: map<nat, string>, ids: seq<nat>): (r: seq<string>)
    requires forall x :: x in ids ==> x in dns
    ensures |r| == |ids|
  {
    seq(|ids|, k requires 0 <= k < |ids| => dns[ids[k]])
  }

  /** The person's attributes once every group on `ids` is recorded in its
      `memberOf` list. */
  function MemberOfAll(p: Attributes, dns: map<nat, string>, ids: seq<nat>): (r: Attributes)
    requires forall x :: x in ids ==> x in dns
  {
    p["memberOf" := Strs(AddAll(ListOf(p, "memberOf"), DnsAlong(dns, ids)))]
  }

  /** What the person ends with: the `memberOf` list it had, then the DN of
      each walked group not already listed, and every other attribute as
      it was. */
  lemma MemberOfAllMeaning(p: Attributes, dns: map<nat, string>, ids: seq<nat>, y: string)
    requires forall x :: x in ids ==> x in dns
    ensures var r := MemberOfAll(p, dns, ids);
            && ListOf(p, "memberOf") <= ListOf(r, "memberOf")
            && (y in ListOf(r, "memberOf") <==> y in ListOf(p, "memberOf") || exists x :: x in ids && dns[x] == y)
            && (Distinct(ListOf(p, "memberOf")) ==> Distinct(ListOf(r, "memberOf")))
            && forall k :: k in p && k != "memberOf" ==> k in r && r[k] == p[k]
  {
    var along := DnsAlong(dns, ids);
    if Distinct(ListOf(p, "memberOf")) {
      AddAllDistinct(ListOf(p, "memberOf"), along);
    }
    if y in along {
      var k :| 0 <= k < |along| && along[k] == y;
      assert ids[k] in ids;
    }
    if exists x :: x in ids && dns[x] == y {
      var x :| x in ids && dns[x] == y;
      var k :| 0 <= k < |ids| && ids[k] == x;
      assert along[k] == y;
    }
  }

  lemma MemberOfAllNone(p: Attributes, dns: map<nat, string>)
    requires HasList(p, "memberOf")
    ensures MemberOfAll(p, dns, []) == p
  {
    assert DnsAlong(dns, []) == [];
  }

  /** One more walked group on the person's side. */
  lemma MemberOfAllSnoc(p: Attributes, dns: map<nat, string>, ids: seq<nat>, x: nat)
    requires forall y :: y in ids ==> y in dns
    requires x in dns
    ensures MemberOfAll(p, dns, ids + [x]) == WithMemberOf(MemberOfAll(p, dns, ids), dns[x])
  {
    assert DnsAlong(dns, ids + [x]) == DnsAlong(dns, ids) + [dns[x]];
    AddAllSnoc(ListOf(p, "memberOf"), DnsAlong(dns, ids), dns[x]);
  }

  /** The groups hold table `s` with the person recorded in those on
      `walked`, and the person holds `p` with those groups recorded. */
  predicate Enrolled(person: Entry, groupOf: map<nat, Entry>, s: map<nat, Attributes>, p: Attributes, walked: seq<nat>)
    reads person, groupOf.Values
  {
    && (forall x :: x in walked ==> x in groupOf)
    && Holds(groupOf, Joined(s, person.dn, walked))
    && person.attributes == MemberOfAll(p, Dns(groupOf), walked)
  }

  /** `addMemberToGroup(personEntry, allLDAPGroupsMap[id])`: one more
      walked group, on the group's side and on the person's. */
  method JoinGroup(person: Entry, groupOf: map<nat, Entry>, id: nat,
                   ghost s: map<nat, Attributes>, ghost p: Attributes, ghost walked: seq<nat>)
    requires id in groupOf && person !in groupOf.Values && Injective(groupOf)
    requires GroupLists(s) && Enrolled(person, groupOf, s, p, walked)
    modifies person, groupOf[id]
    ensures Enrolled(person, groupOf, s, p, walked + [id])
  {
    JoinedLists(s, person.dn, walked);
    JoinedSnoc(s, person.dn, walked, id);
    MemberOfAllSnoc(p, Dns(groupOf), walked, id);
    AddMemberToGroup(person, groupOf[id]);
  }

  lemma LineageStep(walked: seq<nat>, m: map<nat, Dept>, id: nat, fuel: nat)
    requires id != 0 && id in m && fuel > 0
    ensures walked + Lineage(m, id, fuel) == (walked + [id]) + Lineage(m, m[id].parent, fuel - 1)
  {
  }

  /** The callback for one department id of the user: starting at that
      department, record the person in its group and walk up the
      `parentid` links while the department found has a truthy id. */
  method JoinLineage(person: Entry, depsMap: map<nat, Dept>, groupOf: map<nat, Entry>, depId: nat,
                     ghost s: map<nat, Attributes>, ghost p: Attributes, ghost before: seq<nat>)
    requires KeyedById(depsMap) && EndsWithin(Parents(depsMap), depId, |depsMap| + 1)
    requires groupOf.Keys == depsMap.Keys && Injective(groupOf) && person !in groupOf.Values
    requires GroupLists(s) && Enrolled(person, groupOf, s, p, before)
    modifies person, groupOf.Values
    ensures Enrolled(person, groupOf, s, p, before + Lineage(depsMap, depId, |depsMap| + 1))
  {
    ghost var links := Parents(depsMap);
    var cur := depId;
    ghost var fuel: nat := |depsMap| + 1;
    ghost var walked := before;
    var parentDep := if depId in depsMap then Some(depsMap[depId]) else None;
    while parentDep.Some? && parentDep.value.id != 0
      invariant parentDep == (if cur in depsMap then Some(depsMap[cur]) else None)
      invariant EndsWithin(links, cur, fuel)
      invariant walked + Lineage(depsMap, cur, fuel) == before + Lineage(depsMap, depId, |depsMap| + 1)
      invariant Enrolled(person, groupOf, s, p, walked)
      decreases fuel
    {
      JoinGroup(person, groupOf, parentDep.value.id, s, p, walked);
      assert walked + Lineage(depsMap, cur, fuel) == (walked + [cur]) + Lineage(depsMap, parentDep.value.parent, fuel - 1) by {
        LineageStep(walked, depsMap, cur, fuel);
      }
      walked := walked + [cur];
      cur := parentDep.value.parent;
      fuel := fuel - 1;
      parentDep := if cur in depsMap then Some(depsMap[cur]) else None;
    }
    assert Lineage(depsMap, cur, fuel) == [];
    assert walked + [] == walked;
  }

  /** `u.department.forEach(...)`: the person is recorded in the group of
      each of its departments and of their ancestors, department by
      department; the groups' attributes and the person's own follow the
      walk. */
  method Enroll(person: Entry, depsMap: map<nat, Dept>, groupOf: map<nat, Entry>, depIds: seq<nat>, ghost s: map<nat, Attributes>)
    requires KeyedById(depsMap) && Closes(depsMap)
    requires groupOf.Keys == depsMap.Keys && Injective(groupOf) && person !in groupOf.Values
    requires Holds(groupOf, s) && GroupLists(s) && HasList(person.attributes, "memberOf")
    modifies person, groupOf.Values
    ensures Enrolled(person, groupOf, s, old(person.attributes), Walk(depsMap, depIds, |depIds|))
  {
    ghost var p := person.attributes;
    assert Enrolled(person, groupOf, s, p, []) by {
      JoinedNone(s, person.dn);
      MemberOfAllNone(p, Dns(groupOf));
    }
    for i := 0 to |depIds|
      invariant Enrolled(person, groupOf, s, p, Walk(depsMap, depIds, i))
    {
      ghost var walked := Walk(depsMap, depIds, i);
      ClosesFrom(depsMap, depIds[i]);
      JoinLineage(person, depsMap, groupOf, depIds[i], s, p, walked);
      WalkSnoc(depsMap, depIds, i);
    }
  }

  /** In a closed table the walk from any id ends within one step more
      than there are departments. */
  lemma ClosesFrom(m: map<nat, Dept>, id: nat)
    requires Closes(m)
    ensures EndsWithin(Parents(m), id, |m| + 1)
  {
    if id in m {
      assert Parents(m)[id] == m[id].parent;
    }
  }

  /** The walk of one more department id extends the walk so far. */
  lemma WalkSnoc(m: map<nat, Dept>, depIds: seq<nat>, i: nat)
    requires i < |depIds|
    ensures Walk(m, depIds, i) + Lineage(m, depIds[i], |m| + 1) == Walk(m, depIds, i + 1)
  {
  }

  // ---------------------------------------------------------------------------
  // The person entries

  /** The DN of a user's person entry: `mail=<mail>,<firstDepartment.dn>`
      under People. */
  function PersonEntryDN(c: Config, u: User): string
  {
    OrganizationUnitEntryDN(c, PersonDN(u))
  }

  /** A user's person entry after enrolment, as (dn, attributes). */
  function PersonShape(c: Config, m: map<nat, Dept>, dns: map<nat, string>, u: User, attrs: Attributes, random: string): (string, Attributes)
    requires m.Keys == dns.Keys
  {
    (PersonEntryDN(c, u), MemberOfAll(PersonAttributes(c, PersonDN(u), attrs, random), dns, Walk(m, u.department, |u.department|)))
  }

  function PersonShapes(c: Config, m: map<nat, Dept>, dns: map<nat, string>, users: seq<User>,
                        attrsOf: User -> Attributes, randomOf: nat -> string): (r: seq<(string, Attributes)>)
    requires m.Keys == dns.Keys
    ensures |r| == |users|
  {
    seq(|users|, k requires 0 <= k < |users| => PersonShape(c, m, dns, users[k], attrsOf(users[k]), randomOf(k)))
  }

  /** The group table once the first `n` users are enrolled. */
  function PersonJoins(s: map<nat, Attributes>, c: Config, m: map<nat, Dept>, users: seq<User>, n: nat): (r: map<nat, Attributes>)
    requires n <= |users|
    ensures r.Keys == s.Keys
  {
    if n == 0 then s
    else Joined(PersonJoins(s, c, m, users, n - 1), PersonEntryDN(c, users[n - 1]), Walk(m, users[n - 1].department, |users[n - 1].department|))
  }

  /** Recording one person only appends to `member` lists. */
  lemma JoinedGrown(s: map<nat, Attributes>, pdn: string, ids: seq<nat>)
    requires GroupLists(s)
    ensures AllGrown(s, Joined(s, pdn, ids)) && GroupLists(Joined(s, pdn, ids))
  {
    forall id | id in s ensures Grown(s[id], Joined(s, pdn, ids)[id]) {
      JoinedMembers(s, pdn, ids, id);
    }
  }

  /** A group grown from `a0` stays so when one more person is recorded. */
  lemma JoinedGrownFrom(a0: Attributes, s: map<nat, Attributes>, pdn: string, ids: seq<nat>, id: nat)
    requires id in s && HasList(a0, "member") && Grown(a0, s[id])
    ensures Grown(a0, Joined(s, pdn, ids)[id])
  {
    assert HasList(s[id], "member");
    JoinedMembers(s, pdn, ids, id);
    GrownTransitive(a0, s[id], Joined(s, pdn, ids)[id]);
  }

  /** Enrolment only appends to a group's `member` list. */
  lemma {:induction false} PersonJoinsGrownAt(s: map<nat, Attributes>, c: Config, m: map<nat, Dept>, users: seq<User>, n: nat, id: nat)
    requires GroupLists(s) && n <= |users| && id in s
    ensures Grown(s[id], PersonJoins(s, c, m, users, n)[id])
  {
    if n == 0 {
      GrownReflexive(s[id]);
    } else {
      var u := users[n - 1];
      PersonJoinsGrownAt(s, c, m, users, n - 1, id);
      JoinedGrownFrom(s[id], PersonJoins(s, c, m, users, n - 1), PersonEntryDN(c, u), Walk(m, u.department, |u.department|), id);
    }
  }

  /** Enrolment only appends to `member` lists and keeps both lists. */
  lemma PersonJoinsGrown(s: map<nat, Attributes>, c: Config, m: map<nat, Dept>, users: seq<User>, n: nat)
    requires GroupLists(s) && n <= |users|
    ensures AllGrown(s, PersonJoins(s, c, m, users, n)) && GroupLists(PersonJoins(s, c, m, users, n))
  {
    forall id | id in s ensures Grown(s[id], PersonJoins(s, c, m, users, n)[id]) {
      PersonJoinsGrownAt(s, c, m, users, n, id);
    }
  }

  /** The mapping callback for one user: `makePersonEntry`, then the
      enrolment. */
  method MakeEnrolledPerson(c: Config, depsMap: map<nat, Dept>, groupOf: map<nat, Entry>, u: User,
                            attrs: Attributes, random: string, ghost t: map<nat, Attributes>)
      returns (e: Entry)
    requires KeyedById(depsMap) && Closes(depsMap)
    requires groupOf.Keys == depsMap.Keys && Injective(groupOf)
    requires Holds(groupOf, t) && GroupLists(t) && "memberOf" !in attrs
    modifies groupOf.Values
    ensures fresh(e) && e !in groupOf.Values
    ensures (e.dn, e.attributes) == PersonShape(c, depsMap, Dns(groupOf), u, attrs, random)
    ensures Holds(groupOf, Joined(t, PersonEntryDN(c, u), Walk(depsMap, u.department, |u.department|)))
  {
    e := MakePersonEntry(c, PersonDN(u), attrs, random);
    Enroll(e, depsMap, groupOf, u.department, t);
  }

  /** The first `n` users have their person entries, enrolled, and the
      groups hold the table with those persons recorded. */
  predicate PersonsBuilt(persons: seq<Entry>, groupOf: map<nat, Entry>, c: Config, depsMap: map<nat, Dept>,
                         dns: map<nat, string>, users: seq<User>, attrsOf: User -> Attributes, randomOf: nat -> string,
                         s: map<nat, Attributes>, n: nat)
    reads persons, groupOf.Values
  {
    && n <= |users| && depsMap.Keys == dns.Keys
    && Shapes(persons) == PersonShapes(c, depsMap, dns, users, attrsOf, randomOf)[..n]
    && Holds(groupOf, PersonJoins(s, c, depsMap, users, n))
  }

  /** The user mapping of the reload: a person entry per selected user, in
      order, each enrolled in its groups before the next is built. `randomOf(k)`
      stands for the random placeholder password of the `k`-th person. */
  method BuildPersons(c: Config, depsMap: map<nat, Dept>, groupOf: map<nat, Entry>, users: seq<User>,
                      attrsOf: User -> Attributes, randomOf: nat -> string, ghost s: map<nat, Attributes>)
      returns (persons: seq<Entry>)
    requires KeyedById(depsMap) && Closes(depsMap)
    requires groupOf.Keys == depsMap.Keys && Injective(groupOf)
    requires Holds(groupOf, s) && GroupLists(s)
    requires forall u :: "memberOf" !in attrsOf(u)
    modifies groupOf.Values
    ensures PersonsBuilt(persons, groupOf, c, depsMap, Dns(groupOf), users, attrsOf, randomOf, s, |users|)
    ensures forall k :: 0 <= k < |persons| ==> fresh(persons[k])
  {
    ghost var dns := Dns(groupOf);
    persons := [];
    for i := 0 to |users|
      invariant PersonsBuilt(persons, groupOf, c, depsMap, dns, users, attrsOf, randomOf, s, i)
      invariant forall k :: 0 <= k < |persons| ==> fresh(persons[k])
      invariant forall k :: 0 <= k < |persons| ==> persons[k] !in groupOf.Values
    {
      var e := BuildPerson(persons, c, depsMap, groupOf, users, attrsOf, randomOf, s, i);
      FreshSnoc(persons, e);
      persons := persons + [e];
    }
  }

  /** One step of the user mapping. */
  method BuildPerson(persons: seq<Entry>, c: Config, depsMap: map<nat, Dept>, groupOf: map<nat, Entry>, users: seq<User>,
                     attrsOf: User -> Attributes, randomOf: nat -> string, ghost s: map<nat, Attributes>, i: nat)
      returns (e: Entry)
    requires KeyedById(depsMap) && Closes(depsMap)
    requires groupOf.Keys == depsMap.Keys && Injective(groupOf) && GroupLists(s)
    requires forall u :: "memberOf" !in attrsOf(u)
    requires i < |users| && PersonsBuilt(persons, groupOf, c, depsMap, Dns(groupOf), users, attrsOf, randomOf, s, i)
    requires forall k :: 0 <= k < |persons| ==> persons[k] !in groupOf.Values
    modifies groupOf.Values
    ensures PersonsBuilt(persons + [e], groupOf, c, depsMap, Dns(groupOf), users, attrsOf, randomOf, s, i + 1)
    ensures fresh(e) && e !in groupOf.Values
  {
    ghost var t := PersonJoins(s, c, depsMap, users, i);
    ghost var done := Shapes(persons);
    assert GroupLists(t) by { PersonJoinsGrown(s, c, depsMap, users, i); }
    ghost var all := PersonShapes(c, depsMap, Dns(groupOf), users, attrsOf, randomOf);
    e := MakeEnrolledPerson(c, depsMap, groupOf, users[i], attrsOf(users[i]), randomOf(i), t);
    assert Shapes(persons) == done;
    ShapesSnoc(persons, e, all, i);
    assert Holds(groupOf, PersonJoins(s, c, depsMap, users, i + 1));
  }

  lemma ShapesSnoc(persons: seq<Entry>, e: Entry, all: seq<(string, Attributes)>, i: nat)
    requires i < |all| && Shapes(persons) == all[..i] && (e.dn, e.attributes) == all[i]
    ensures Shapes(persons + [e]) == all[..i + 1]
  {
    ShapesConcat(persons, [e]);
    TakeOneMore(all, i);
  }

  // ---------------------------------------------------------------------------
  // The whole directory

  /** Every department's group as first built, by id. */
  function InitialGroups(c: Config, m: map<nat, Dept>): (r: map<nat, Attributes>)
    ensures r.Keys == m.Keys
  {
    map id | id in m :: GroupShape(c, m[id]).1
  }

  /** The DN of every department's group, by id. */
  function GroupDns(c: Config, m: map<nat, Dept>): (r: map<nat, string>)
    ensures r.Keys == m.Keys
  {
    map id | id in m :: GroupEntryDN(c, m[id].dn)
  }

  /** The groups after the hierarchy pass. */
  function Hierarchy(c: Config, m: map<nat, Dept>): (r: map<nat, Attributes>)
    requires KeyedById(m)
    ensures r.Keys == m.Keys
  {
    LinkAll(InitialGroups(c, m), GroupDns(c, m), ValuesInKeyOrder(m), |m|)
  }

  /** The groups once every selected user is enrolled as well. */
  function FinalGroups(c: Config, m: map<nat, Dept>, users: seq<User>): (r: map<nat, Attributes>)
    requires KeyedById(m)
    ensures r.Keys == m.Keys
  {
    PersonJoins(Hierarchy(c, m), c, m, users, |users|)
  }

  /** The groups of `deps`, in order, as (dn, attributes) read off `f`. */
  function GroupShapesFrom(c: Config, deps: seq<Dept>, f: map<nat, Attributes>): (r: seq<(string, Attributes)>)
    requires Ids(deps) <= f.Keys
    ensures |r| == |deps|
    ensures forall k :: 0 <= k < |deps| ==> r[k] == (GroupEntryDN(c, deps[k].dn), f[deps[k].id])
  {
    seq(|deps|, k requires 0 <= k < |deps| => (GroupEntryDN(c, deps[k].dn), f[deps[k].id]))
  }

  /** The published groups, one per department in order. */
  function FinalGroupShapes(c: Config, deps: seq<Dept>, users: seq<User>): (r: seq<(string, Attributes)>)
    ensures |r| == |deps|
  {
    GroupShapesFrom(c, deps, FinalGroups(c, MapOf(deps), users))
  }

  lemma InitialGroupsLists(c: Config, m: map<nat, Dept>)
    ensures GroupLists(InitialGroups(c, m))
  {
    forall id | id in m ensures HasList(InitialGroups(c, m)[id], "member") && HasList(InitialGroups(c, m)[id], "memberOf") {
      DepartmentEntries(c, [m[id]], 0);
    }
  }

  /** The group table built from a department list holds the initial
      groups, one id at a time. */
  lemma GroupStart(c: Config, deps: seq<Dept>, groups: seq<Entry>, id: nat)
    requires |deps| == |groups| && Ascending(deps) && Shapes(groups) == GroupShapes(c, deps)
    requires id in Ids(deps)
    ensures GroupsById(deps, groups)[id].attributes == InitialGroups(c, MapOf(deps))[id]
    ensures GroupsById(deps, groups)[id].dn == GroupDns(c, MapOf(deps))[id]
  {
    var k := IdIndex(deps, id);
    GroupsByIdAscending(deps, groups);
    MapOfAscending(deps);
    assert Shapes(groups)[k] == GroupShape(c, deps[k]);
  }

  lemma GroupsStart(c: Config, deps: seq<Dept>, groups: seq<Entry>)
    requires |deps| == |groups| && Ascending(deps) && Shapes(groups) == GroupShapes(c, deps)
    ensures Holds(GroupsById(deps, groups), InitialGroups(c, MapOf(deps)))
    ensures Dns(GroupsById(deps, groups)) == GroupDns(c, MapOf(deps))
  {
    var t, m := GroupsById(deps, groups), MapOf(deps);
    assert Holds(t, InitialGroups(c, m)) by {
      forall id | id in Ids(deps) ensures t[id].attributes == InitialGroups(c, m)[id] {
        GroupStart(c, deps, groups, id);
      }
    }
    var dns, want := Dns(t), GroupDns(c, m);
    assert dns == want by {
      forall id | id in Ids(deps) ensures dns[id] == want[id] {
        GroupStart(c, deps, groups, id);
      }
    }
  }

  /** The published groups, read off the group table. */
  lemma GroupsEnd(c: Config, deps: seq<Dept>, groups: seq<Entry>, users: seq<User>)
    requires |deps| == |groups| && Ascending(deps)
    requires forall k :: 0 <= k < |deps| ==> groups[k].dn == GroupEntryDN(c, deps[k].dn)
    requires Holds(GroupsById(deps, groups), FinalGroups(c, MapOf(deps), users))
    ensures Shapes(groups) == FinalGroupShapes(c, deps, users)
  {
    GroupsByIdAscending(deps, groups);
  }

  /** After the hierarchy pass every group still has both lists. */
  lemma HierarchyLists(c: Config, m: map<nat, Dept>)
    requires KeyedById(m)
    ensures GroupLists(Hierarchy(c, m))
  {
    InitialGroupsLists(c, m);
    LinkAllLists(InitialGroups(c, m), GroupDns(c, m), ValuesInKeyOrder(m), |m|);
  }

  /** The groups with everything recorded along them: their lists only grow
      from the groups as first built. */
  lemma FinalGroupsGrown(c: Config, m: map<nat, Dept>, users: seq<User>)
    requires KeyedById(m)
    ensures AllGrown(InitialGroups(c, m), FinalGroups(c, m, users))
    ensures GroupLists(FinalGroups(c, m, users))
  {
    InitialGroupsLists(c, m);
    LinkAllGrown(InitialGroups(c, m), GroupDns(c, m), ValuesInKeyOrder(m), |m|);
    PersonJoinsGrown(Hierarchy(c, m), c, m, users, |users|);
    AllGrownTransitive(InitialGroups(c, m), Hierarchy(c, m), FinalGroups(c, m, users));
  }

  /** `groups` are the groups of `deps` by their DNs, indexed by department
      id in `groupOf`, one distinct entry per department. */
  predicate TableBuilt(c: Config, deps: seq<Dept>, groups: seq<Entry>, groupOf: map<nat, Entry>)
  {
    && |groups| == |deps| && groupOf == GroupsById(deps, groups) && Injective(groupOf)
    && (forall k :: 0 <= k < |groups| ==> groups[k].dn == GroupEntryDN(c, deps[k].dn))
    && Dns(groupOf) == GroupDns(c, MapOf(deps))
  }

  /** One hierarchy step adds to a `member` list only the child's group,
      and only to the parent's group. */
  lemma LinkOneMembers(s: map<nat, Attributes>, dns: map<nat, string>, d: Dept, id: nat, y: string)
    requires id in s
    ensures y in ListOf(LinkOne(s, dns, d)[id], "member") <==>
              y in ListOf(s[id], "member") || (Linkable(s, dns, d) && d.parent == id && y == dns[d.id])
  {
    if Linkable(s, dns, d) {
      var s1 := s[d.parent := WithMember(s[d.parent], dns[d.id])];
      var r := LinkOne(s, dns, d);
      assert r == s1[d.id := WithMemberOf(s1[d.id], dns[d.parent])];
      assert ListOf(r[id], "member") == ListOf(s1[id], "member");
      if id == d.parent {
        assert ListOf(s1[id], "member") == AddOnce(ListOf(s[id], "member"), dns[d.id]);
      }
    }
  }

  /** One hierarchy step adds to a `memberOf` list only the parent's group,
      and only to the child's group. */
  lemma LinkOneMemberOfs(s: map<nat, Attributes>, dns: map<nat, string>, d: Dept, id: nat, y: string)
    requires id in s
    ensures y in ListOf(LinkOne(s, dns, d)[id], "memberOf") <==>
              y in ListOf(s[id], "memberOf") || (Linkable(s, dns, d) && d.id == id && y == dns[d.parent])
  {
    if Linkable(s, dns, d) {
      var s1 := s[d.parent := WithMember(s[d.parent], dns[d.id])];
      var r := LinkOne(s, dns, d);
      assert r == s1[d.id := WithMemberOf(s1[d.id], dns[d.parent])];
      assert ListOf(s1[id], "memberOf") == ListOf(s[id], "memberOf");
      if id == d.id {
        assert ListOf(r[id], "memberOf") == AddOnce(ListOf(s1[id], "memberOf"), dns[d.parent]);
      }
    }
  }

  /** Some department among the first `n` has a parent, and it is `id`,
      and `y` is the DN of its group. */
  predicate ChildAmong(s: map<nat, Attributes>, dns: map<nat, string>, deps: seq<Dept>, n: nat, id: nat, y: string)
    requires n <= |deps|
  {
    exists k :: 0 <= k < n && Linkable(s, dns, deps[k]) && deps[k].parent == id && y == dns[deps[k].id]
  }

  /** The hierarchy pass over the first `n` departments: a group's `member`
      list gains exactly the groups of its child departments among them. */
  lemma {:induction false} LinkAllMembers(s: map<nat, Attributes>, dns: map<nat, string>, deps: seq<Dept>, n: nat, id: nat, y: string)
    requires n <= |deps| && id in s
    ensures y in ListOf(LinkAll(s, dns, deps, n)[id], "member") <==>
              y in ListOf(s[id], "member") || ChildAmong(s, dns, deps, n, id, y)
  {
    if n > 0 {
      LinkAllMembers(s, dns, deps, n - 1, id, y);
      LinkOneMembers(LinkAll(s, dns, deps, n - 1), dns, deps[n - 1], id, y);
      ChildAmongSnoc(s, dns, deps, n, id, y);
    }
  }

  /** One department more: either an earlier one, or the last one. */
  lemma ChildAmongSnoc(s: map<nat, Attributes>, dns: map<nat, string>, deps: seq<Dept>, n: nat, id: nat, y: string)
    requires 0 < n <= |deps|
    ensures ChildAmong(s, dns, deps, n, id, y) <==>
              ChildAmong(s, dns, deps, n - 1, id, y) ||
              (Linkable(s, dns, deps[n - 1]) && deps[n - 1].parent == id && y == dns[deps[n - 1].id])
  {
    if ChildAmong(s, dns, deps, n, id, y) {
      var k :| 0 <= k < n && Linkable(s, dns, deps[k]) && deps[k].parent == id && y == dns[deps[k].id];
      if k < n - 1 {
        assert ChildAmong(s, dns, deps, n - 1, id, y);
      }
    }
  }

  /** Some department among the first `n` with a parent is `id`, and `y`
      is the DN of its parent's group. */
  predicate ParentAmong(s: map<nat, Attributes>, dns: map<nat, string>, deps: seq<Dept>, n: nat, id: nat, y: string)
    requires n <= |deps|
  {
    exists k :: 0 <= k < n && Linkable(s, dns, deps[k]) && deps[k].id == id && y == dns[deps[k].parent]
  }

  /** The hierarchy pass over the first `n` departments: a group's
      `memberOf` list gains exactly the group of its parent department, if
      the department is among them. */
  lemma {:induction false} LinkAllMemberOfs(s: map<nat, Attributes>, dns: map<nat, string>, deps: seq<Dept>, n: nat, id: nat, y: string)
    requires n <= |deps| && id in s
    ensures y in ListOf(LinkAll(s, dns, deps, n)[id], "memberOf") <==>
              y in ListOf(s[id], "memberOf") || ParentAmong(s, dns, deps, n, id, y)
  {
    if n > 0 {
      LinkAllMemberOfs(s, dns, deps, n - 1, id, y);
      LinkOneMemberOfs(LinkAll(s, dns, deps, n - 1), dns, deps[n - 1], id, y);
      ParentAmongSnoc(s, dns, deps, n, id, y);
    }
  }

  /** One department more: either an earlier one, or the last one. */
  lemma ParentAmongSnoc(s: map<nat, Attributes>, dns: map<nat, string>, deps: seq<Dept>, n: nat, id: nat, y: string)
    requires 0 < n <= |deps|
    ensures ParentAmong(s, dns, deps, n, id, y) <==>
              ParentAmong(s, dns, deps, n - 1, id, y) ||
              (Linkable(s, dns, deps[n - 1]) && deps[n - 1].id == id && y == dns[deps[n - 1].parent])
  {
    if ParentAmong(s, dns, deps, n, id, y) {
      var k :| 0 <= k < n && Linkable(s, dns, deps[k]) && deps[k].id == id && y == dns[deps[k].parent];
      if k < n - 1 {
        assert ParentAmong(s, dns, deps, n - 1, id, y);
      }
    }
  }

  /** Recording one person adds that person, and nothing else, to the
      `member` lists of the walked groups, and leaves `memberOf` alone. */
  lemma JoinedListsAt(s: map<nat, Attributes>, pdn: string, ids: seq<nat>, id: nat, y: string)
    requires id in s
    ensures y in ListOf(Joined(s, pdn, ids)[id], "member") <==> y in ListOf(s[id], "member") || (id in ids && y == pdn)
    ensures ListOf(Joined(s, pdn, ids)[id], "memberOf") == ListOf(s[id], "memberOf")
  {
    if id in ids {
      assert ListOf(WithMember(s[id], pdn), "member") == AddOnce(ListOf(s[id], "member"), pdn);
    }
  }

  /** Some user among the first `n` has a walk through `id`, and `y` is
      the DN of that user's person entry. */
  predicate EnrolledAmong(c: Config, m: map<nat, Dept>, users: seq<User>, n: nat, id: nat, y: string)
    requires n <= |users|
  {
    exists k :: 0 <= k < n && EnrolledAt(c, m, users, k, id, y)
  }

  /** The walk of user `k` passes through `id`, and `y` is the DN of that
      user's person entry. */
  predicate EnrolledAt(c: Config, m: map<nat, Dept>, users: seq<User>, k: nat, id: nat, y: string)
    requires k < |users|
  {
    id in Walk(m, users[k].department, |users[k].department|) && y == PersonEntryDN(c, users[k])
  }

  /** One user more: either an earlier user, or the last one. */
  lemma EnrolledAmongSnoc(c: Config, m: map<nat, Dept>, users: seq<User>, n: nat, id: nat, y: string)
    requires 0 < n <= |users|
    ensures EnrolledAmong(c, m, users, n, id, y) <==> EnrolledAmong(c, m, users, n - 1, id, y) || EnrolledAt(c, m, users, n - 1, id, y)
  {
    if EnrolledAmong(c, m, users, n, id, y) {
      var k :| 0 <= k < n && EnrolledAt(c, m, users, k, id, y);
      if k < n - 1 {
        assert EnrolledAmong(c, m, users, n - 1, id, y);
      }
    }
  }

  /** Enrolling one user more adds that user's person to the groups of its
      walk, and nothing else. */
  lemma PersonJoinsStep(s: map<nat, Attributes>, c: Config, m: map<nat, Dept>, users: seq<User>, n: nat, id: nat, y: string)
    requires 0 < n <= |users| && id in s
    ensures y in ListOf(PersonJoins(s, c, m, users, n)[id], "member") <==>
              y in ListOf(PersonJoins(s, c, m, users, n - 1)[id], "member") || EnrolledAt(c, m, users, n - 1, id, y)
  {
    var u := users[n - 1];
    JoinedListsAt(PersonJoins(s, c, m, users, n - 1), PersonEntryDN(c, u), Walk(m, u.department, |u.department|), id, y);
  }

  /** Enrolling the first `n` users: a group's `member` list gains exactly
      the persons whose walk passes through it. */
  lemma {:induction false} PersonJoinsMembers(s: map<nat, Attributes>, c: Config, m: map<nat, Dept>, users: seq<User>, n: nat, id: nat, y: string)
    requires n <= |users| && id in s
    ensures y in ListOf(PersonJoins(s, c, m, users, n)[id], "member") <==>
              y in ListOf(s[id], "member") || EnrolledAmong(c, m, users, n, id, y)
  {
    if n == 0 {
      assert !EnrolledAmong(c, m, users, n, id, y);
    } else {
      PersonJoinsMembers(s, c, m, users, n - 1, id, y);
      PersonJoinsStep(s, c, m, users, n, id, y);
      EnrolledAmongSnoc(c, m, users, n, id, y);
    }
  }

  /** Enrolling users leaves every `memberOf` list of the groups alone. */
  lemma {:induction false} PersonJoinsMemberOfs(s: map<nat, Attributes>, c: Config, m: map<nat, Dept>, users: seq<User>, n: nat, id: nat)
    requires n <= |users| && id in s
    ensures ListOf(PersonJoins(s, c, m, users, n)[id], "memberOf") == ListOf(s[id], "memberOf")
  {
    if n > 0 {
      var u := users[n - 1];
      PersonJoinsMemberOfs(s, c, m, users, n - 1, id);
      JoinedListsAt(PersonJoins(s, c, m, users, n - 1), PersonEntryDN(c, u), Walk(m, u.department, |u.department|), id, "");
    }
  }

  /** A group as first built lists nobody, in either direction. */
  lemma InitialGroupsEmpty(c: Config, m: map<nat, Dept>, id: nat)
    requires id in m
    ensures ListOf(InitialGroups(c, m)[id], "member") == []
    ensures ListOf(InitialGroups(c, m)[id], "memberOf") == []
  {
    assert "member" !in GroupId(m[id]) && "memberOf" !in GroupId(m[id]);
  }

  /** The child departments the hierarchy pass finds are exactly the
      departments whose parent is `id`. */
  lemma ChildAmongKeys(m: map<nat, Dept>, s: map<nat, Attributes>, dns: map<nat, string>, id: nat, y: string)
    requires KeyedById(m) && s.Keys == m.Keys && dns.Keys == m.Keys && id in m
    ensures ChildAmong(s, dns, ValuesInKeyOrder(m), |m|, id, y) <==>
              id != 0 && exists child :: child in m && m[child].parent == id && y == dns[child]
  {
    if id != 0 && exists child :: child in m && m[child].parent == id && y == dns[child] {
      var child :| child in m && m[child].parent == id && y == dns[child];
      ChildFound(m, s, dns, id, y, child);
    }
    if ChildAmong(s, dns, ValuesInKeyOrder(m), |m|, id, y) {
      ChildKnown(m, s, dns, ValuesInKeyOrder(m), |m|, id, y);
    }
  }

  lemma ChildFound(m: map<nat, Dept>, s: map<nat, Attributes>, dns: map<nat, string>, id: nat, y: string, child: nat)
    requires KeyedById(m) && s.Keys == m.Keys && dns.Keys == m.Keys && id in m && id != 0
    requires child in m && m[child].parent == id && y == dns[child]
    ensures ChildAmong(s, dns, ValuesInKeyOrder(m), |m|, id, y)
  {
    var deps := ValuesInKeyOrder(m);
    var k := ValuesInKeyOrderAt(m, child);
    assert Linkable(s, dns, deps[k]) && deps[k].parent == id && y == dns[deps[k].id];
  }

  lemma ChildKnown(m: map<nat, Dept>, s: map<nat, Attributes>, dns: map<nat, string>, deps: seq<Dept>, n: nat, id: nat, y: string)
    requires dns.Keys == m.Keys && n <= |deps|
    requires forall i :: 0 <= i < |deps| ==> deps[i].id in m && deps[i] == m[deps[i].id]
    requires ChildAmong(s, dns, deps, n, id, y)
    ensures id != 0 && exists child :: child in m && m[child].parent == id && y == dns[child]
  {
    var k :| 0 <= k < n && Linkable(s, dns, deps[k]) && deps[k].parent == id && y == dns[deps[k].id];
    var child := deps[k].id;
    assert child in m && m[child].parent == id && y == dns[child];
  }

  /** The parent department the hierarchy pass finds for `id` is its own. */
  lemma ParentAmongKeys(m: map<nat, Dept>, s: map<nat, Attributes>, dns: map<nat, string>, id: nat, y: string)
    requires KeyedById(m) && s.Keys == m.Keys && dns.Keys == m.Keys && id in m
    ensures ParentAmong(s, dns, ValuesInKeyOrder(m), |m|, id, y) <==>
              m[id].parent != 0 && m[id].parent in m && y == dns[m[id].parent]
  {
    var deps := ValuesInKeyOrder(m);
    if m[id].parent != 0 && m[id].parent in m && y == dns[m[id].parent] {
      var k := ValuesInKeyOrderAt(m, id);
      assert Linkable(s, dns, deps[k]) && deps[k].id == id && y == dns[deps[k].parent];
    }
    if ParentAmong(s, dns, deps, |m|, id, y) {
      ParentKnown(m, s, dns, deps, |m|, id, y);
    }
  }

  lemma ParentKnown(m: map<nat, Dept>, s: map<nat, Attributes>, dns: map<nat, string>, deps: seq<Dept>, n: nat, id: nat, y: string)
    requires s.Keys == m.Keys && dns.Keys == m.Keys && n <= |deps| && id in m
    requires forall i :: 0 <= i < |deps| ==> deps[i].id in m && deps[i] == m[deps[i].id]
    requires ParentAmong(s, dns, deps, n, id, y)
    ensures m[id].parent != 0 && m[id].parent in m && y == dns[m[id].parent]
  {
    var k :| 0 <= k < n && Linkable(s, dns, deps[k]) && deps[k].id == id && y == dns[deps[k].parent];
    assert deps[k] == m[id];
  }

  /** The published `member` list of a department's group: exactly the
      groups of its child departments and the persons whose walk reaches
      the department. */
  lemma FinalMembers(c: Config, m: map<nat, Dept>, users: seq<User>, id: nat, y: string)
    requires KeyedById(m) && id in m
    ensures y in ListOf(FinalGroups(c, m, users)[id], "member") <==>
              (id != 0 && exists child :: child in m && m[child].parent == id && y == GroupDns(c, m)[child]) ||
              EnrolledAmong(c, m, users, |users|, id, y)
  {
    InitialGroupsEmpty(c, m, id);
    LinkAllMembers(InitialGroups(c, m), GroupDns(c, m), ValuesInKeyOrder(m), |m|, id, y);
    PersonJoinsMembers(Hierarchy(c, m), c, m, users, |users|, id, y);
    ChildAmongKeys(m, InitialGroups(c, m), GroupDns(c, m), id, y);
  }

  /** The published `memberOf` list of a department's group: exactly the
      group of its parent department, when it has one. */
  lemma FinalMemberOfs(c: Config, m: map<nat, Dept>, users: seq<User>, id: nat, y: string)
    requires KeyedById(m) && id in m
    ensures y in ListOf(FinalGroups(c, m, users)[id], "memberOf") <==>
              m[id].parent != 0 && m[id].parent in m && y == GroupDns(c, m)[m[id].parent]
  {
    InitialGroupsEmpty(c, m, id);
    LinkAllMemberOfs(InitialGroups(c, m), GroupDns(c, m), ValuesInKeyOrder(m), |m|, id, y);
    PersonJoinsMemberOfs(Hierarchy(c, m), c, m, users, |users|, id);
    ParentAmongKeys(m, InitialGroups(c, m), GroupDns(c, m), id, y);
  }

  /** A person's published `memberOf` list: exactly the groups of the
      departments its walk reaches. */
  lemma PersonMemberOfs(c: Config, m: map<nat, Dept>, u: User, attrs: Attributes, random: string, y: string)
    requires "memberOf" !in attrs
    ensures var a := PersonShape(c, m, GroupDns(c, m), u, attrs, random).1;
            && (forall k :: k in attrs ==> k in a && a[k] == attrs[k])
            && (y in ListOf(a, "memberOf") <==> exists x :: x in Walk(m, u.department, |u.department|) && y == GroupDns(c, m)[x])
  {
    var walk := Walk(m, u.department, |u.department|);
    var p := PersonAttributes(c, PersonDN(u), attrs, random);
    assert ListOf(p, "memberOf") == [];
    MemberOfAllMeaning(p, GroupDns(c, m), walk, y);
  }

  /** The groups, built and indexed by department id. */
  method BuildGroupTable(c: Config, deps: seq<Dept>) returns (groups: seq<Entry>, groupOf: map<nat, Entry>)
    requires Ascending(deps)
    ensures TableBuilt(c, deps, groups, groupOf) && Holds(groupOf, InitialGroups(c, MapOf(deps)))
    ensures forall e :: e in groupOf.Values ==> fresh(e)
  {
    groups := BuildGroups(c, deps);
    groupOf := GroupsById(deps, groups);
    GroupsByIdInjective(deps, groups);
    GroupsStart(c, deps, groups);
    assert forall e :: e in groupOf.Values ==> e in groups;
    forall k | 0 <= k < |groups| ensures groups[k].dn == GroupEntryDN(c, deps[k].dn) {
      assert Shapes(groups)[k] == GroupShapes(c, deps)[k];
    }
  }

  /** `groups` are the groups of `deps`, indexed by department id in
      `groupOf`, with the department hierarchy recorded among them. */
  predicate HierarchyBuilt(c: Config, deps: seq<Dept>, groups: seq<Entry>, groupOf: map<nat, Entry>)
    reads groupOf.Values
  {
    TableBuilt(c, deps, groups, groupOf) && Holds(groupOf, Hierarchy(c, MapOf(deps)))
  }

  /** The groups, built and indexed, with the hierarchy recorded. */
  method BuildHierarchy(c: Config, deps: seq<Dept>) returns (groups: seq<Entry>, groupOf: map<nat, Entry>)
    requires Ascending(deps) && ParentsClosed(MapOf(deps))
    ensures HierarchyBuilt(c, deps, groups, groupOf)
    ensures forall e :: e in groupOf.Values ==> fresh(e)
  {
    var depsMap := MapOf(deps);
    groups, groupOf := BuildGroupTable(c, deps);
    assert GroupLists(InitialGroups(c, depsMap)) by { InitialGroupsLists(c, depsMap); }
    LinkHierarchy(depsMap, groupOf, InitialGroups(c, depsMap));
  }

  /** The selected users made into person entries and enrolled in the
      groups of their departments and of every department above them. */
  method BuildPeople(c: Config, deps: seq<Dept>, groups: seq<Entry>, groupOf: map<nat, Entry>, users: seq<User>,
                     attrsOf: User -> Attributes, randomOf: nat -> string)
      returns (persons: seq<Entry>)
    requires Ascending(deps) && Closes(MapOf(deps)) && HierarchyBuilt(c, deps, groups, groupOf)
    requires forall u :: "memberOf" !in attrsOf(u)
    modifies groupOf.Values
    ensures Shapes(groups) == FinalGroupShapes(c, deps, users)
    ensures Shapes(persons) == PersonShapes(c, MapOf(deps), GroupDns(c, MapOf(deps)), users, attrsOf, randomOf)
  {
    var depsMap := MapOf(deps);
    assert GroupLists(Hierarchy(c, depsMap)) by { HierarchyLists(c, depsMap); }
    persons := BuildPersons(c, depsMap, groupOf, users, attrsOf, randomOf, Hierarchy(c, depsMap));
    PeopleEnd(c, deps, groups, groupOf, users, attrsOf, randomOf, persons);
  }

  /** Once every user is mapped, the groups and persons are the published
      ones. */
  lemma PeopleEnd(c: Config, deps: seq<Dept>, groups: seq<Entry>, groupOf: map<nat, Entry>, users: seq<User>,
                  attrsOf: User -> Attributes, randomOf: nat -> string, persons: seq<Entry>)
    requires Ascending(deps) && TableBuilt(c, deps, groups, groupOf)
    requires PersonsBuilt(persons, groupOf, c, MapOf(deps), Dns(groupOf), users, attrsOf, randomOf, Hierarchy(c, MapOf(deps)), |users|)
    requires Dns(groupOf) == GroupDns(c, MapOf(deps))
    ensures Shapes(groups) == FinalGroupShapes(c, deps, users)
    ensures Shapes(persons) == PersonShapes(c, MapOf(deps), GroupDns(c, MapOf(deps)), users, attrsOf, randomOf)
  {
    var depsMap := MapOf(deps);
    TakeAll(PersonShapes(c, depsMap, GroupDns(c, depsMap), users, attrsOf, randomOf));
    GroupsEnd(c, deps, groups, users);
  }

  /** The directory-building half of the reload: the groups, the
      organizational units and the person entries, with the hierarchy
      recorded and every person enrolled. `deps` are the departments in
      `Object.values` order, `users` the selected users. */
  method BuildDirectory(c: Config, deps: seq<Dept>, users: seq<User>, attrsOf: User -> Attributes, randomOf: nat -> string)
      returns (groups: seq<Entry>, units: seq<Entry>, persons: seq<Entry>)
    requires Ascending(deps) && Closes(MapOf(deps)) && ParentsClosed(MapOf(deps))
    requires forall u :: "memberOf" !in attrsOf(u)
    ensures Shapes(groups) == FinalGroupShapes(c, deps, users)
    ensures Shapes(units) == UnitShapes(c, deps)
    ensures Shapes(persons) == PersonShapes(c, MapOf(deps), GroupDns(c, MapOf(deps)), users, attrsOf, randomOf)
  {
    groups, persons := BuildGroupsAndPeople(c, deps, users, attrsOf, randomOf);
    // the units are separate objects no step touches, so they are made last
    units := BuildUnits(c, deps);
  }

  /** The group passes and the user mapping, which share the group table. */
  method BuildGroupsAndPeople(c: Config, deps: seq<Dept>, users: seq<User>, attrsOf: User -> Attributes, randomOf: nat -> string)
      returns (groups: seq<Entry>, persons: seq<Entry>)
    requires Ascending(deps) && Closes(MapOf(deps)) && ParentsClosed(MapOf(deps))
    requires forall u :: "memberOf" !in attrsOf(u)
    ensures Shapes(groups) == FinalGroupShapes(c, deps, users)
    ensures Shapes(persons) == PersonShapes(c, MapOf(deps), GroupDns(c, MapOf(deps)), users, attrsOf, randomOf)
  {
    var groupOf;
    groups, groupOf := BuildHierarchy(c, deps);
    persons := BuildPeople(c, deps, groups, groupOf, users, attrsOf, randomOf);
  }

  /** What a provider publishes after a reload over `deps` and the selected
      `users`: the groups with the whole hierarchy and every membership, one
      unit per department and one person per user. */
  predicate Publishes(c: Config, deps: seq<Dept>, users: seq<User>, attrsOf: User -> Attributes, randomOf: nat -> string,
                      groups: seq<Entry>, units: seq<Entry>, persons: seq<Entry>)
    reads groups, units, persons
  {
    && Shapes(groups) == FinalGroupShapes(c, deps, users)
    && Shapes(units) == UnitShapes(c, deps)
    && Shapes(persons) == PersonShapes(c, MapOf(deps), GroupDns(c, MapOf(deps)), users, attrsOf, randomOf)
  }
}
