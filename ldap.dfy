/** lib/utilities/ldap.js: DN construction, the entry constructors, the
    memoised static base entries, admin checks and the two-sided
    membership update. */
module Ldap {
  import opened Common
  import opened Entries

  /** An admin identity from configuration. */
  datatype Admin = Admin(commonName: string, password: string, canModifyEntry: bool)

  /** The `ldap` section of the configuration (the listen port is left out). */
  datatype Config = Config(rootDN: string, organization: string, userPassword: string, admins: seq<Admin>)

  // ---------------------------------------------------------------------------
  // DNs

  /** `makeDN(...parts)`: the parts joined with ',' in argument order. */
  function MakeDN(parts: seq<string>): string
  {
    Join(parts, ",")
  }

  function OrganizationBaseDN(c: Config): string
  {
    MakeDN(["o=" + c.organization, c.rootDN])
  }

  function PeopleBaseDN(c: Config): string
  {
    MakeDN(["ou=People", OrganizationBaseDN(c)])
  }

  function GroupsBaseDN(c: Config): string
  {
    MakeDN(["ou=Groups", OrganizationBaseDN(c)])
  }

  /** `makeDN` of two parts. */
  lemma MakeDNPair(a: string, b: string)
    ensures MakeDN([a, b]) == a + "," + b
  {
    assert [a, b][1..] == [b];
    assert Join([b], ",") == b;
  }

  /** The three base DNs as they read once joined. */
  lemma BaseDNs(c: Config)
    ensures OrganizationBaseDN(c) == "o=" + c.organization + "," + c.rootDN
    ensures PeopleBaseDN(c) == "ou=People,o=" + c.organization + "," + c.rootDN
    ensures GroupsBaseDN(c) == "ou=Groups,o=" + c.organization + "," + c.rootDN
  {
    MakeDNPair("o=" + c.organization, c.rootDN);
    MakeDNPair("ou=People", OrganizationBaseDN(c));
    MakeDNPair("ou=Groups", OrganizationBaseDN(c));
  }

  /** `makeDN` of several parts is the parts with ',' between them. */
  lemma MakeDNJoins(parts: seq<string>, last: string)
    requires |parts| >= 1
    ensures MakeDN(parts + [last]) == MakeDN(parts) + "," + last
  {
    JoinSnoc(parts, last, ",");
  }

  function GroupEntryDN(c: Config, dn: string): (r: string)
    ensures r == dn + ",ou=Groups,o=" + c.organization + "," + c.rootDN
  {
    MakeDNPair(dn, GroupsBaseDN(c));
    BaseDNs(c);
    MakeDN([dn, GroupsBaseDN(c)])
  }

  function OrganizationUnitEntryDN(c: Config, dn: string): (r: string)
    ensures r == dn + ",ou=People,o=" + c.organization + "," + c.rootDN
  {
    MakeDNPair(dn, PeopleBaseDN(c));
    BaseDNs(c);
    MakeDN([dn, PeopleBaseDN(c)])
  }

  // ---------------------------------------------------------------------------
  // Entry attributes: defaults, then the caller's attributes on top
  // (Object.assign)

  function OrganizationUnitAttributes(dn: string, name: string, attrs: Attributes): (r: Attributes)
    ensures r.Keys == attrs.Keys + {"objectclass", "ou", "entryDN"}
    ensures forall k :: k in attrs ==> r[k] == attrs[k]
    ensures "objectclass" !in attrs ==> r["objectclass"] == Strs(["organizationalUnit", "top"])
    ensures "ou" !in attrs ==> r["ou"] == Str(name)
    ensures "entryDN" !in attrs ==> r["entryDN"] == Str(dn)
  {
    map["objectclass" := Strs(["organizationalUnit", "top"]), "ou" := Str(name), "entryDN" := Str(dn)] + attrs
  }

  /** The placeholder password: the configured one, or a random string when
      none is configured. */
  function PlaceholderPassword(c: Config, random: string): string
  {
    if c.userPassword != "" then c.userPassword else random
  }

  function PersonAttributes(c: Config, dn: string, attrs: Attributes, random: string): (r: Attributes)
    ensures r.Keys == attrs.Keys + {"objectclass", "userPassword", "memberOf", "entryDN"}
    ensures forall k :: k in attrs ==> r[k] == attrs[k]
    ensures "objectclass" !in attrs ==> r["objectclass"] == Strs(["inetOrgPerson", "organizationalPerson", "person", "top"])
    ensures "userPassword" !in attrs ==> r["userPassword"] == Str(PlaceholderPassword(c, random))
    ensures "memberOf" !in attrs ==> r["memberOf"] == Strs([])
    ensures "entryDN" !in attrs ==> r["entryDN"] == Str(dn)
  {
    map["objectclass" := Strs(["inetOrgPerson", "organizationalPerson", "person", "top"]),
        "userPassword" := Str(PlaceholderPassword(c, random)),
        "memberOf" := Strs([]),
        "entryDN" := Str(dn)] + attrs
  }

  function GroupAttributes(dn: string, name: string, members: seq<string>, attrs: Attributes): (r: Attributes)
    ensures r.Keys == attrs.Keys + {"objectclass", "cn", "ou", "member", "memberOf", "entryDN"}
    ensures forall k :: k in attrs ==> r[k] == attrs[k]
    ensures "objectclass" !in attrs ==> r["objectclass"] == Strs(["groupOfNames", "top"])
    ensures "cn" !in attrs ==> r["cn"] == Str(name)
    ensures "ou" !in attrs ==> r["ou"] == Str(name)
    ensures "member" !in attrs ==> r["member"] == Strs(members)
    ensures "memberOf" !in attrs ==> r["memberOf"] == Strs([])
    ensures "entryDN" !in attrs ==> r["entryDN"] == Str(dn)
  {
    map["objectclass" := Strs(["groupOfNames", "top"]), "cn" := Str(name), "ou" := Str(name),
        "member" := Strs(members), "memberOf" := Strs([]), "entryDN" := Str(dn)] + attrs
  }

  /** `makeOrganizationUnitEntry(dn, name, attrs)`. */
  method MakeOrganizationUnitEntry(c: Config, dn: string, name: string, attrs: Attributes) returns (e: Entry)
    ensures fresh(e)
    ensures e.dn == OrganizationUnitEntryDN(c, dn)
    ensures e.attributes == OrganizationUnitAttributes(dn, name, attrs)
  {
    e := new Entry(OrganizationUnitEntryDN(c, dn), OrganizationUnitAttributes(dn, name, attrs));
  }

  /** `makePersonEntry(dn, attrs)`; `random` stands for the random string
      drawn when no placeholder password is configured. */
  method MakePersonEntry(c: Config, dn: string, attrs: Attributes, random: string) returns (e: Entry)
    ensures fresh(e)
    ensures e.dn == OrganizationUnitEntryDN(c, dn)
    ensures e.attributes == PersonAttributes(c, dn, attrs, random)
  {
    e := new Entry(OrganizationUnitEntryDN(c, dn), PersonAttributes(c, dn, attrs, random));
  }

  /** `makeGroupEntry(dn, name, members, attrs)`. */
  method MakeGroupEntry(c: Config, dn: string, name: string, members: seq<string>, attrs: Attributes) returns (e: Entry)
    ensures fresh(e)
    ensures e.dn == GroupEntryDN(c, dn)
    ensures e.attributes == GroupAttributes(dn, name, members, attrs)
  {
    e := new Entry(GroupEntryDN(c, dn), GroupAttributes(dn, name, members, attrs));
  }

  // ---------------------------------------------------------------------------
  // Static base entries

  function AdminDN(c: Config, a: Admin): (r: string)
    ensures r == "cn=" + a.commonName + "," + c.rootDN
  {
    MakeDNPair("cn=" + a.commonName, c.rootDN);
    Join(["cn=" + a.commonName, c.rootDN], ",")
  }

  function AdminAttributes(): Attributes
  {
    map["objectclass" := Strs(["simpleSecurityObject", "organizationalRole"]), "hasSubordinates" := Strs(["FALSE"])]
  }

  /** `rootDN.split(',')[0].split('=')[1].trim()`: the text after the first
      '=' of the first component (up to a second '=', if any), trimmed;
      None where the expression throws because there is no '='. */
  function RootDc(rootDN: string): Option<string>
  {
    var pieces := Split(Split(rootDN, ',')[0], '=');
    if |pieces| >= 2 then Some(Trim(pieces[1])) else None
  }

  /** For a root DN that starts `attr=value,` the dc is the trimmed value. */
  lemma RootDcOfComponent(attr: string, value: string, rest: string)
    requires ',' !in attr && '=' !in attr && ',' !in value && '=' !in value
    ensures RootDc(attr + "=" + value + "," + rest) == Some(Trim(value))
  {
    var first := attr + "=" + value;
    assert ',' !in first;
    assert attr + "=" + value + "," + rest == first + [','] + rest;
    SplitConcat(first, rest, ',');
    SplitNoSeparator(first, ',');
    assert first == attr + ['='] + value;
    SplitConcat(attr, value, '=');
    SplitNoSeparator(attr, '=');
    SplitNoSeparator(value, '=');
  }

  /** Without '=' in its first component the root DN has no dc. */
  lemma RootDcMissing(rootDN: string)
    requires '=' !in Split(rootDN, ',')[0]
    ensures RootDc(rootDN) == None
  {
    SplitNoSeparator(Split(rootDN, ',')[0], '=');
  }

  function RootAttributes(c: Config, dc: string): Attributes
  {
    map["objectclass" := Strs(["dcObject", "organization", "top"]), "dc" := Str(dc),
        "o" := Str(c.organization), "hasSubordinates" := Strs(["TRUE"])]
  }

  function OrganizationAttributes(c: Config): Attributes
  {
    map["objectclass" := Strs(["organization", "top"]), "ou" := Str(c.organization)]
  }

  function ContainerAttributes(ou: string): Attributes
  {
    map["objectclass" := Strs(["organizationalUnit", "top"]), "ou" := Str(ou)]
  }

  /** The (dn, attributes) pair of every admin's entry, in configuration order. */
  function AdminShapes(c: Config): (r: seq<(string, Attributes)>)
    ensures |r| == |c.admins|
    ensures forall i :: 0 <= i < |c.admins| ==> r[i] == ("cn=" + c.admins[i].commonName + "," + c.rootDN, AdminAttributes())
  {
    seq(|c.admins|, i requires 0 <= i < |c.admins| => (AdminDN(c, c.admins[i]), AdminAttributes()))
  }

  /** The base entries as (dn, attributes) pairs: root, organization, People,
      Groups, then one entry per admin in configuration order; None where
      the root DN has no dc. */
  function BaseEntryShapes(c: Config): (r: Option<seq<(string, Attributes)>>)
    ensures r.Some? <==> RootDc(c.rootDN).Some?
    ensures r.Some? ==> |r.value| == 4 + |c.admins|
    ensures r.Some? ==> r.value[0] == (c.rootDN, RootAttributes(c, RootDc(c.rootDN).value))
    ensures r.Some? ==> r.value[1].0 == OrganizationBaseDN(c) && r.value[2].0 == PeopleBaseDN(c) && r.value[3].0 == GroupsBaseDN(c)
    ensures r.Some? ==> r.value[4..] == AdminShapes(c)
  {
    match RootDc(c.rootDN)
    case None => None
    case Some(dc) => Some(FixedShapes(c, dc) + AdminShapes(c))
  }

  /** Root, organization, People and Groups. */
  function FixedShapes(c: Config, dc: string): seq<(string, Attributes)>
  {
    [(c.rootDN, RootAttributes(c, dc)),
     (OrganizationBaseDN(c), OrganizationAttributes(c)),
     (PeopleBaseDN(c), ContainerAttributes("People")),
     (GroupsBaseDN(c), ContainerAttributes("Groups"))]
  }

  /** The (dn, attributes) pairs of a list of entries, in the current state. */
  function Shapes(es: seq<Entry>): (r: seq<(string, Attributes)>)
    reads es
    ensures |r| == |es|
    ensures forall i :: 0 <= i < |es| ==> r[i] == (es[i].dn, es[i].attributes)
  {
    seq(|es|, i reads es requires 0 <= i < |es| => (es[i].dn, es[i].attributes))
  }

  lemma ShapesConcat(a: seq<Entry>, b: seq<Entry>)
    ensures Shapes(a + b) == Shapes(a) + Shapes(b)
  {
  }

  method MakeFixedEntries(c: Config, dc: string) returns (es: seq<Entry>)
    ensures Shapes(es) == FixedShapes(c, dc)
    ensures forall i :: 0 <= i < |es| ==> fresh(es[i])
  {
    var root := new Entry(c.rootDN, RootAttributes(c, dc));
    var org := new Entry(OrganizationBaseDN(c), OrganizationAttributes(c));
    var people := new Entry(PeopleBaseDN(c), ContainerAttributes("People"));
    var groups := new Entry(GroupsBaseDN(c), ContainerAttributes("Groups"));
    es := [root, org, people, groups];
  }

  /** `makeAdminEntry(attrs)`. */
  method MakeAdminEntry(c: Config, a: Admin) returns (e: Entry)
    ensures fresh(e)
    ensures e.dn == "cn=" + a.commonName + "," + c.rootDN
    ensures e.attributes == AdminAttributes()
  {
    e := new Entry(AdminDN(c, a), AdminAttributes());
  }

  /** `getAdminEntries()`: a fresh entry per configured admin. */
  method MakeAdminEntries(c: Config) returns (es: seq<Entry>)
    ensures Shapes(es) == AdminShapes(c)
    ensures forall i :: 0 <= i < |es| ==> fresh(es[i])
  {
    es := [];
    var i := 0;
    while i < |c.admins|
      invariant 0 <= i <= |c.admins|
      invariant Shapes(es) == AdminShapes(c)[..i]
      invariant forall j :: 0 <= j < |es| ==> fresh(es[j])
    {
      var admin := MakeAdminEntry(c, c.admins[i]);
      FreshSnoc(es, admin);
      es := es + [admin];
      i := i + 1;
    }
    assert AdminShapes(c)[..i] == AdminShapes(c);
  }

  /** The module state of ldap.js: the configuration and the memoised base
      entries. */
  class BaseEntryCache {
    const config: Config
    var cachedBaseEntries: Option<seq<Entry>>

    constructor (config: Config)
      ensures this.config == config && cachedBaseEntries == None
    {
      this.config := config;
      cachedBaseEntries := None;
    }

    /** `getBaseEntries()`: built on the first call and returned unchanged
        afterwards. None where building throws (a root DN without '='), in
        which case nothing is memoised. */
    method GetBaseEntries() returns (r: Option<seq<Entry>>)
      modifies this
      ensures old(cachedBaseEntries).Some? ==> r == old(cachedBaseEntries) && cachedBaseEntries == r
      ensures old(cachedBaseEntries).None? && RootDc(config.rootDN).None? ==> r == None && cachedBaseEntries == None
      ensures old(cachedBaseEntries).None? && RootDc(config.rootDN).Some? ==>
                && r.Some? && cachedBaseEntries == r
                && Some(Shapes(r.value)) == BaseEntryShapes(config)
                && forall i :: 0 <= i < |r.value| ==> fresh(r.value[i])
    {
      if cachedBaseEntries.Some? {
        return cachedBaseEntries;
      }
      var dc := RootDc(config.rootDN);
      if dc.None? {
        return None;
      }
      var fixed := MakeFixedEntries(config, dc.value);
      var admins := MakeAdminEntries(config);
      var entries := fixed + admins;
      ShapesConcat(fixed, admins);
      cachedBaseEntries := Some(entries);
      r := cachedBaseEntries;
    }
  }

  // ---------------------------------------------------------------------------
  // Admin checks

  /** The index of the first admin whose common name equals `username`
      (the head of `admins.filter(...)`), if any. */
  function FirstAdmin(admins: seq<Admin>, username: string): (r: Option<nat>)
    ensures r.None? <==> forall i :: 0 <= i < |admins| ==> admins[i].commonName != username
    ensures r.Some? ==> r.value < |admins| && admins[r.value].commonName == username
    ensures r.Some? ==> forall j :: 0 <= j < r.value ==> admins[j].commonName != username
    decreases |admins|
  {
    if |admins| == 0 then None
    else if admins[0].commonName == username then Some(0)
    else
      match FirstAdmin(admins[1..], username)
      case None => None
      case Some(k) => Some(k + 1)
  }

  /** `validateAdminPassword`: the first admin with that name exists and
      its password is exactly the one given. */
  function ValidateAdminPassword(c: Config, username: string, password: string): (r: bool)
    ensures r <==> FirstAdmin(c.admins, username).Some? && c.admins[FirstAdmin(c.admins, username).value].password == password
    ensures (forall i :: 0 <= i < |c.admins| ==> c.admins[i].commonName != username) ==> !r
  {
    match FirstAdmin(c.admins, username)
    case None => false
    case Some(i) => c.admins[i].password == password
  }

  /** `user[permission]` is truthy: the flag, or a non-empty string for the
      two string-valued properties; any other name is undefined. */
  function AdminFlag(a: Admin, permission: string): bool
  {
    if permission == "canModifyEntry" then a.canModifyEntry
    else if permission == "password" then a.password != ""
    else if permission == "commonName" then a.commonName != ""
    else false
  }

  /** `validateAdminPermission`: the first admin with that name has the flag. */
  function ValidateAdminPermission(c: Config, username: string, permission: string): (r: bool)
    ensures r <==> FirstAdmin(c.admins, username).Some? && AdminFlag(c.admins[FirstAdmin(c.admins, username).value], permission)
    ensures r && permission == "canModifyEntry" ==>
              exists i :: 0 <= i < |c.admins| && c.admins[i].commonName == username && c.admins[i].canModifyEntry
  {
    match FirstAdmin(c.admins, username)
    case None => false
    case Some(i) => AdminFlag(c.admins[i], permission)
  }

  // ---------------------------------------------------------------------------
  // Two-sided membership

  /** The group's attributes once `x` is recorded in its `member` list. */
  function WithMember(a: Attributes, x: string): (r: Attributes)
    ensures x in ListOf(r, "member")
    ensures HasList(a, "member") ==> Grown(a, r)
    ensures forall k :: k in a && k != "member" ==> k in r && r[k] == a[k]
    ensures x in ListOf(a, "member") && HasList(a, "member") ==> r == a
  {
    a["member" := Strs(AddOnce(ListOf(a, "member"), x))]
  }

  /** The member's attributes once `x` is recorded in its `memberOf` list. */
  function WithMemberOf(a: Attributes, x: string): (r: Attributes)
    ensures x in ListOf(r, "memberOf")
    ensures HasList(a, "memberOf") ==> Grown(a, r)
    ensures forall k :: k in a && k != "memberOf" ==> k in r && r[k] == a[k]
    ensures x in ListOf(a, "memberOf") && HasList(a, "memberOf") ==> r == a
  {
    a["memberOf" := Strs(AddOnce(ListOf(a, "memberOf"), x))]
  }

  /** `addMemberToGroup(memberEntry, groupEntry)`: the member's DN is in the
      group's `member` list and the group's DN in the member's `memberOf`
      list, each pushed only if absent; nothing else changes. */
  method AddMemberToGroup(m: Entry, g: Entry)
    requires HasList(g.attributes, "member") && HasList(m.attributes, "memberOf")
    modifies m, g
    ensures m != g ==> g.attributes == WithMember(old(g.attributes), m.dn)
    ensures m != g ==> m.attributes == WithMemberOf(old(m.attributes), g.dn)
    ensures m == g ==> g.attributes == WithMemberOf(WithMember(old(g.attributes), m.dn), g.dn)
  {
    if m.dn !in ListOf(g.attributes, "member") {
      g.attributes := g.attributes["member" := Strs(ListOf(g.attributes, "member") + [m.dn])];
    }
    if g.dn !in ListOf(m.attributes, "memberOf") {
      m.attributes := m.attributes["memberOf" := Strs(ListOf(m.attributes, "memberOf") + [g.dn])];
    }
  }

  /** Calling `addMemberToGroup` twice leaves the same two attribute maps as
      calling it once (for distinct member and group). */
  lemma AddMemberIdempotent(group: Attributes, member: Attributes, memberDN: string, groupDN: string)
    requires HasList(group, "member") && HasList(member, "memberOf")
    ensures WithMember(WithMember(group, memberDN), memberDN) == WithMember(group, memberDN)
    ensures WithMemberOf(WithMemberOf(member, groupDN), groupDN) == WithMemberOf(member, groupDN)
  {
  }

  /** Lists without repetitions stay without repetitions. */
  lemma AddMemberNoDuplicates(group: Attributes, member: Attributes, memberDN: string, groupDN: string)
    requires Distinct(ListOf(group, "member")) && Distinct(ListOf(member, "memberOf"))
    ensures Distinct(ListOf(WithMember(group, memberDN), "member"))
    ensures Distinct(ListOf(WithMemberOf(member, groupDN), "memberOf"))
  {
    AddOnceDistinct(ListOf(group, "member"), memberDN);
    AddOnceDistinct(ListOf(member, "memberOf"), groupDN);
  }
}
