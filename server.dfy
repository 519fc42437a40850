/** lib/server.js: the decisions the directory server makes for search,
    bind and modify requests. The protocol library's parser and filter
    matcher are abstracted: a DN string is compared through `Canon` (lower
    case, then parsed), and a search filter is its text together with a
    predicate over attributes. Handlers are modelled by what they send and
    what they write to the credential store. */
module Server {
  import opened Common
  import opened Dn
  import opened Entries
  import opened Ldap
  import opened Password
  import opened Memory
  import opened Db
  import CustomGroups

  // ---------------------------------------------------------------------------
  // equalsDN

  /** A DN as `equalsDN` compares it: lower-cased, then parsed. */
  function Canon(s: string): (r: DN)
    ensures s == "" <==> r == []
  {
    ParseDN(Lower(s))
  }

  /** `equalsDN(a, b)`. */
  predicate EqualsDN(a: string, b: string)
  {
    Canon(a) == Canon(b)
  }

  /** DN equality is an equivalence. */
  lemma EqualsDNEquivalence(a: string, b: string, c: string)
    ensures EqualsDN(a, a)
    ensures EqualsDN(a, b) ==> EqualsDN(b, a)
    ensures EqualsDN(a, b) && EqualsDN(b, c) ==> EqualsDN(a, c)
  {
  }

  /** DN equality ignores the case of ASCII letters on both sides. */
  lemma EqualsDNIgnoresCase(a: string, b: string)
    ensures EqualsDN(a, b) <==> EqualsDN(Lower(a), Lower(b))
    ensures EqualsDN(a, Lower(a))
  {
    LowerIdempotent(a);
    LowerIdempotent(b);
  }

  /** Joining two DN strings with ',' joins their canonical forms. */
  lemma CanonJoin(a: string, b: string)
    requires a != "" && b != ""
    ensures Canon(a + "," + b) == Canon(a) + Canon(b)
  {
    LowerConcat(a + ",", b);
    LowerConcat(a, ",");
    assert Lower(",") == ",";
    ParseJoin(Lower(a), Lower(b));
  }

  /** A DN string without ',' is a single component. */
  lemma CanonSingle(s: string)
    requires s != "" && ',' !in s
    ensures Canon(s) == [ParseRdn(Lower(s))]
  {
    assert ',' !in Lower(s) by {
      forall i | 0 <= i < |s| ensures Lower(s)[i] != ',' {
        assert s[i] != ',';
      }
    }
    SplitNoSeparator(Lower(s), ',');
  }

  /** The parent of an admin's DN is the root DN, whatever the case. */
  lemma AdminDNParent(c: Config, a: Admin)
    requires c.rootDN != "" && ',' !in a.commonName
    ensures |Canon(AdminDN(c, a))| == 1 + |Canon(c.rootDN)|
    ensures Parent(Canon(AdminDN(c, a))) == Some(Canon(c.rootDN))
  {
    CanonJoin("cn=" + a.commonName, c.rootDN);
    CanonSingle("cn=" + a.commonName);
  }

  /** The organization base lies strictly below the root, so a DN under the
      organization base is at least two components below the root. */
  lemma OrganizationBelowRoot(c: Config)
    requires c.rootDN != "" && ',' !in c.organization
    ensures ParentOf(Canon(c.rootDN), Canon(OrganizationBaseDN(c)))
    ensures |Canon(OrganizationBaseDN(c))| == 1 + |Canon(c.rootDN)|
  {
    BaseDNs(c);
    CanonJoin("o=" + c.organization, c.rootDN);
    CanonSingle("o=" + c.organization);
    ParentOfPrefix(Canon("o=" + c.organization), Canon(c.rootDN));
  }

  // ---------------------------------------------------------------------------
  // Verdicts and authorize

  /** How a request ends: passed on, or one of the two protocol errors, or
      an exception thrown inside the handler. */
  datatype Verdict = Proceed | InsufficientAccessRights | InvalidCredentials | Throws

  /** The request `authorize` guards: a search (with its base object) or
      anything else. */
  datatype Request = SearchOf(baseObject: string) | OtherRequest

  /** `authorize(req, res, next)` for the connection's bind DN. A one-
      component bind DN has the empty DN as parent; the empty bind DN has
      none, and `equalsDN` then throws. */
  function Authorize(bindDN: string, rootDN: string, req: Request): (r: Verdict)
    ensures r == Proceed <==>
              (req.SearchOf? && EqualsDN(bindDN, req.baseObject)) || (bindDN != "" && Parent(Canon(bindDN)) == Some(Canon(rootDN)))
    ensures r == Throws <==> bindDN == "" && !(req.SearchOf? && EqualsDN(bindDN, req.baseObject))
    ensures r != InvalidCredentials
  {
    if req.SearchOf? && EqualsDN(bindDN, req.baseObject) then Proceed
    else match Parent(Canon(bindDN))
      case None => Throws
      case Some(parent) => if parent == Canon(rootDN) then Proceed else InsufficientAccessRights
  }

  /** An admin, bound under its entry's DN, may do anything. */
  lemma AdminAuthorized(c: Config, a: Admin, req: Request)
    requires c.rootDN != "" && ',' !in a.commonName
    ensures Authorize(AdminDN(c, a), c.rootDN, req) == Proceed
  {
    AdminDNParent(c, a);
  }

  /** A person, bound under a DN below the organization, may search its own
      entry and nothing else, and may not modify anything. */
  lemma PersonConfined(c: Config, bindDN: string, req: Request)
    requires c.rootDN != "" && ',' !in c.organization
    requires ParentOf(Canon(OrganizationBaseDN(c)), Canon(bindDN))
    ensures Authorize(bindDN, c.rootDN, req) == Proceed <==> req.SearchOf? && EqualsDN(bindDN, req.baseObject)
    ensures Authorize(bindDN, c.rootDN, OtherRequest) == InsufficientAccessRights
  {
    OrganizationBelowRoot(c);
    assert |Canon(bindDN)| >= 2 + |Canon(c.rootDN)|;
  }

  // ---------------------------------------------------------------------------
  // The root DSE

  /** The root DSE entry; it advertises the root DN as naming context. */
  function RootDse(c: Config): (r: (string, Attributes))
    ensures r.0 == "" && ListOf(r.1, "namingContexts") == [c.rootDN]
  {
    ("", map["objectclass" := Strs(["top", "OpenLDAProotDSE"]), "namingContexts" := Strs([c.rootDN]),
             "supportedLDAPVersion" := Strs(["3"]), "subschemaSubentry" := Strs(["cn=Subschema"])])
  }

  /** The search scopes the protocol defines. */
  datatype Scope = BaseObject | SingleLevel | WholeSubtree | UnknownScope(name: string)

  /** A search request: base object, scope, the filter's text, and the
      filter as a predicate over an entry's attributes. */
  datatype SearchRequest = SearchRequest(baseObject: string, scope: Scope, filter: string, matches: Attributes -> bool)

  /** What the handler for the empty DN sends: the root DSE for a base
      search of the empty DN with filter `(objectclass=*)`, nothing
      otherwise. */
  function DseResponse(c: Config, req: SearchRequest): (r: seq<(string, Attributes)>)
    ensures |r| <= 1
    ensures |r| == 1 <==> req.scope == BaseObject && req.filter == "(objectclass=*)" && req.baseObject == ""
    ensures |r| == 1 ==> r[0] == RootDse(c)
  {
    if req.scope == BaseObject && req.filter == "(objectclass=*)" && req.baseObject == "" then [RootDse(c)] else []
  }

  // ---------------------------------------------------------------------------
  // Search below the root DN

  /** The scope comparators: `base` the base itself, `one` the entries
      whose parent is the base, `sub` the base and everything below it; a
      scope without a comparator admits nothing. */
  predicate InScope(scope: Scope, base: DN, obj: DN)
  {
    match scope
    case BaseObject => obj == base
    case SingleLevel => Parent(obj) == Some(base)
    case WholeSubtree => obj == base || ParentOf(base, obj)
    case UnknownScope(_) => false
  }

  /** The scopes by the components of the two DNs: `one` is exactly one
      component below, `sub` any suffix; `base` and `one` lie within
      `sub` and exclude each other. */
  lemma ScopeMeaning(base: DN, obj: DN)
    ensures InScope(SingleLevel, base, obj) <==> |obj| == |base| + 1 && obj[1..] == base
    ensures InScope(WholeSubtree, base, obj) <==> |base| <= |obj| && obj[|obj| - |base|..] == base
    ensures InScope(BaseObject, base, obj) ==> InScope(WholeSubtree, base, obj)
    ensures InScope(SingleLevel, base, obj) ==> InScope(WholeSubtree, base, obj)
    ensures !(InScope(BaseObject, base, obj) && InScope(SingleLevel, base, obj))
  {
    if InScope(SingleLevel, base, obj) {
      assert obj[|obj| - |base|..] == obj[1..];
    }
  }

  /** Everything in the subtree of an entry is in the subtree of the
      entry's ancestors. */
  lemma SubtreeNested(a: DN, b: DN, obj: DN)
    requires InScope(WholeSubtree, a, b) && InScope(WholeSubtree, b, obj)
    ensures InScope(WholeSubtree, a, obj)
  {
    if b != a && obj != b {
      ParentOfTransitive(a, b, obj);
    }
  }

  /** The entry is sent: in scope of the base object and matched by the
      filter. */
  predicate Sends(req: SearchRequest, e: (string, Attributes))
  {
    InScope(req.scope, Canon(req.baseObject), Canon(e.0)) && req.matches(e.1)
  }

  /** The entries sent, in the order given. */
  function Selected(req: SearchRequest, es: seq<(string, Attributes)>): (r: seq<(string, Attributes)>)
    ensures |r| <= |es|
    ensures forall x :: x in r ==> x in es && Sends(req, x)
    ensures forall x :: x in es && Sends(req, x) ==> x in r
    ensures req.scope.UnknownScope? ==> r == []
    decreases |es|
  {
    if |es| == 0 then []
    else (if Sends(req, es[0]) then [es[0]] else []) + Selected(req, es[1..])
  }

  /** Filtering a concatenation keeps the order of the parts. */
  lemma {:induction false} SelectedConcat(req: SearchRequest, a: seq<(string, Attributes)>, b: seq<(string, Attributes)>)
    ensures Selected(req, a + b) == Selected(req, a) + Selected(req, b)
    decreases |a|
  {
    if |a| > 0 {
      var head := if Sends(req, a[0]) then [a[0]] else [];
      assert Selected(req, a + b) == head + Selected(req, a[1..] + b) by {
        assert (a + b)[0] == a[0] && (a + b)[1..] == a[1..] + b;
      }
      SelectedConcat(req, a[1..], b);
      assert Selected(req, a) == head + Selected(req, a[1..]);
    } else {
      assert a + b == b;
    }
  }

  /** The search handler below the root DN. Base entries, provider entries
      and custom groups are gathered (building the custom groups records
      their members on the provider entries), then filtered and sent in
      that order. None where building the base entries throws. An unknown
      scope sends nothing and gathers nothing. */
  method Search(cache: BaseEntryCache, provider: seq<Entry>, customGroups: Option<seq<CustomGroups.CustomGroup>>, req: SearchRequest)
    returns (sent: Option<seq<(string, Attributes)>>, custom: seq<Entry>)
    requires customGroups.Some? ==> forall e :: e in provider ==> CustomGroups.Enrollable(customGroups.value, e.attributes)
    modifies cache, provider
    ensures req.scope.UnknownScope? ==> sent == Some([]) && custom == []
    ensures req.scope.UnknownScope? ==> unchanged(cache) && forall e :: e in provider ==> e.attributes == old(e.attributes)
    ensures !req.scope.UnknownScope? ==>
              (sent.None? <==> old(cache.cachedBaseEntries).None? && RootDc(cache.config.rootDN).None?)
    ensures sent.None? ==> custom == [] && forall e :: e in provider ==> e.attributes == old(e.attributes)
    ensures sent.Some? && old(cache.cachedBaseEntries).Some? ==> cache.cachedBaseEntries == old(cache.cachedBaseEntries)
    ensures sent.Some? && !req.scope.UnknownScope? && old(cache.cachedBaseEntries).None? ==>
              cache.cachedBaseEntries.Some? && Some(Shapes(cache.cachedBaseEntries.value)) == BaseEntryShapes(cache.config)
    ensures sent.Some? && !req.scope.UnknownScope? ==>
              && cache.cachedBaseEntries.Some?
              && sent.value == Selected(req, Shapes(cache.cachedBaseEntries.value)) + Selected(req, Shapes(provider)) + Selected(req, Shapes(custom))
              && sent.value == Selected(req, Shapes(cache.cachedBaseEntries.value) + Shapes(provider) + Shapes(custom))
    ensures customGroups.None? ==> custom == [] && forall e :: e in provider ==> e.attributes == old(e.attributes)
    ensures sent.Some? && !req.scope.UnknownScope? && customGroups.Some? ==>
              && |custom| == 1 + |customGroups.value|
              && custom[0].dn == GroupEntryDN(cache.config, CustomGroups.BaseDN)
              && custom[0].attributes == CustomGroups.BaseAttributes(cache.config, customGroups.value)
              && (forall i :: 0 <= i < |customGroups.value| ==>
                    custom[1 + i].dn == CustomGroups.GroupDN(cache.config, customGroups.value[i]) &&
                    custom[1 + i].attributes == CustomGroups.CustomAttributes(cache.config, customGroups.value[i], old(Shapes(provider))))
              && forall e :: e in provider ==>
                   e.attributes == CustomGroups.Enroll(cache.config, customGroups.value, |customGroups.value|, old(e.attributes))
  {
    if req.scope.UnknownScope? {
      return Some([]), [];
    }
    ghost var before := Shapes(provider);
    var base := cache.GetBaseEntries();
    if base.None? {
      return None, [];
    }
    assert Shapes(provider) == before;
    custom := CustomGroups.GetLDAPCustomGroupEntries(cache.config, customGroups, provider);
    var all := Shapes(base.value) + Shapes(provider) + Shapes(custom);
    sent := Some(Selected(req, all));
    SelectedConcat(req, Shapes(base.value) + Shapes(provider), Shapes(custom));
    SelectedConcat(req, Shapes(base.value), Shapes(provider));
  }

  // ---------------------------------------------------------------------------
  // getPersonMatchedDN

  /** The object classes of an entry, as the filter matcher reads them. */
  function ObjectClasses(a: Attributes): seq<string>
  {
    if "objectclass" !in a then []
    else match a["objectclass"]
      case Str(s) => [s]
      case Strs(xs) => xs
      case Num(_) => []
  }

  /** `(objectclass=inetOrgPerson)` matches: object classes compare without
      regard to case. */
  predicate IsPerson(a: Attributes)
  {
    HasPersonClass(ObjectClasses(a))
  }

  /** One of the classes is `inetOrgPerson`, in any case. */
  predicate HasPersonClass(classes: seq<string>)
    decreases |classes|
  {
    |classes| > 0 && (Lower(classes[0]) == "inetorgperson" || HasPersonClass(classes[1..]))
  }

  /** The entry `getPersonMatchedDN` looks for. */
  predicate PersonAt(req: DN, e: (string, Attributes))
  {
    Canon(e.0) == req && IsPerson(e.1)
  }

  /** `getPersonMatchedDN(reqDN)`: the index of the first person entry
      whose DN equals the requested one. */
  function PersonMatch(req: DN, es: seq<(string, Attributes)>): (r: Option<nat>)
    ensures r.None? <==> forall j :: 0 <= j < |es| ==> !PersonAt(req, es[j])
    ensures r.Some? ==> r.value < |es| && PersonAt(req, es[r.value])
    ensures r.Some? ==> forall j :: 0 <= j < r.value ==> !PersonAt(req, es[j])
  {
    FirstTrue(Hits(req, es))
  }

  /** Which entries are persons at the requested DN. */
  function Hits(req: DN, es: seq<(string, Attributes)>): (r: seq<bool>)
    ensures |r| == |es| && forall j :: 0 <= j < |es| ==> r[j] == PersonAt(req, es[j])
  {
    seq(|es|, j requires 0 <= j < |es| => PersonAt(req, es[j]))
  }

  /** The first index holding `true`, if any. */
  function FirstTrue(bs: seq<bool>): (r: Option<nat>)
    ensures r.None? <==> forall j :: 0 <= j < |bs| ==> !bs[j]
    ensures r.Some? ==> r.value < |bs| && bs[r.value] && forall j :: 0 <= j < r.value ==> !bs[j]
    decreases |bs|
  {
    if |bs| == 0 then None
    else if bs[0] then Some(0)
    else match FirstTrue(bs[1..])
      case None => None
      case Some(k) => Some(k + 1)
  }

  /** A person built with the default object classes is found by its DN. */
  lemma DefaultPersonIsPerson(c: Config, dn: string, attrs: Attributes, random: string)
    requires "objectclass" !in attrs
    ensures IsPerson(PersonAttributes(c, dn, attrs, random))
  {
    var a := PersonAttributes(c, dn, attrs, random);
    assert ObjectClasses(a)[0] == "inetOrgPerson";
    assert Lower("inetOrgPerson") == "inetorgperson";
    assert HasPersonClass(ObjectClasses(a));
  }

  /** `attributes.uid` used as a property key. */
  function UidOf(a: Attributes): (r: string)
    ensures "uid" in a && a["uid"].Str? ==> r == a["uid"].s
  {
    if "uid" !in a then "undefined"
    else match a["uid"]
      case Str(s) => s
      case Strs(xs) => Join(xs, ",")
      case Num(n) => if n >= 0 then Decimal(n) else "-" + Decimal(-n)
  }

  // ---------------------------------------------------------------------------
  // Bind

  /** A verdict and the credential table after the request. */
  datatype Outcome = Outcome(verdict: Verdict, rows: map<string, Record>)

  /** `rdns[0].attrs.cn.value`: the value of a first component named `cn`;
      None where reading it throws. */
  function CommonName(dn: DN): (r: Option<string>)
    ensures r.Some? <==> |dn| > 0 && dn[0].attr == "cn"
    ensures r.Some? ==> r.value == dn[0].value
  {
    if |dn| > 0 && dn[0].attr == "cn" then Some(dn[0].value) else None
  }

  /** What a person's stored record holds in place of a falsy password:
      the entry's `userPassword`. Anything but a string is kept as null,
      and validation then throws. */
  function Fallback(person: Attributes): (r: Field)
    ensures r.Text? <==> "userPassword" in person && person["userPassword"].Str?
    ensures r.Text? ==> r.s == person["userPassword"].s
  {
    if "userPassword" in person && person["userPassword"].Str? then Text(person["userPassword"].s) else Null
  }

  /** The record a person bind checks: the stored one, with a falsy
      password replaced by the entry's. */
  function Compared(record: Record, person: Attributes): (r: Record)
    ensures Truthy(record, "password") ==> r == record
    ensures !Truthy(record, "password") ==> "password" in r && r["password"] == Fallback(person)
  {
    if Truthy(record, "password") then record else record["password" := Fallback(person)]
  }

  /** An admin bind, for a DN whose parent is the root DN: the `cn` of its
      first component must name an admin with exactly that password. */
  function AdminBindVerdict(c: Config, req: DN, credentials: string): (r: Verdict)
    ensures r == Proceed <==> CommonName(req).Some? && ValidateAdminPassword(c, CommonName(req).value, credentials)
    ensures r == Throws <==> CommonName(req).None?
  {
    match CommonName(req)
    case None => Throws
    case Some(name) => if ValidateAdminPassword(c, name, credentials) then Proceed else InvalidCredentials
  }

  /** A person bind, for a DN below the organization. The record handed
      out by the in-memory store is the stored object, so replacing a falsy
      password in it changes the table. */
  function PersonBindOutcome(p: Primitives, es: seq<(string, Attributes)>, rows: map<string, Record>,
                             req: DN, credentials: string): (r: Outcome)
    ensures PersonMatch(req, es).None? ==> r == Outcome(InvalidCredentials, rows)
    ensures r.rows != rows ==> PersonMatch(req, es).Some?
  {
    match PersonMatch(req, es)
    case None => Outcome(InvalidCredentials, rows)
    case Some(i) => CheckOutcome(p, rows, es[i].1, credentials)
  }

  /** The password check for a matched person: the stored password, or the
      entry's in place of a falsy one (written back when the person has a
      record), against the credentials. Only the person's record changes. */
  function CheckOutcome(p: Primitives, rows: map<string, Record>, person: Attributes, credentials: string): (r: Outcome)
    ensures forall k :: k != UidOf(person) ==> (k in r.rows <==> k in rows)
    ensures forall k :: k != UidOf(person) && k in rows ==> r.rows[k] == rows[k]
  {
    var uid := UidOf(person);
    var record := Compared(RecordFor(rows, uid), person);
    var after := if uid in rows then rows[uid := record] else rows;
    match record["password"]
    case Null => Outcome(Throws, after)
    case Text(secret) => Outcome(if ValidateUserPassword(p, secret, credentials) then Proceed else InvalidCredentials, after)
  }

  /** The bind handler below the root DN: admins are the DNs whose parent
      is the root DN, persons the DNs below the organization; any other DN
      lacks the rights. Only a person bind touches the table. */
  function BindOutcome(c: Config, p: Primitives, es: seq<(string, Attributes)>, rows: map<string, Record>,
                       dn: string, credentials: string): (r: Outcome)
    ensures Parent(Canon(dn)) == Some(Canon(c.rootDN)) ==> r == Outcome(AdminBindVerdict(c, Canon(dn), credentials), rows)
    ensures Parent(Canon(dn)).Some? && Parent(Canon(dn)) != Some(Canon(c.rootDN)) ==>
              r == if ParentOf(Canon(OrganizationBaseDN(c)), Canon(dn)) then PersonBindOutcome(p, es, rows, Canon(dn), credentials)
                   else Outcome(InsufficientAccessRights, rows)
  {
    var req := Canon(dn);
    match Parent(req)
    case None => Outcome(Throws, rows)
    case Some(parent) =>
      if parent == Canon(c.rootDN) then Outcome(AdminBindVerdict(c, req, credentials), rows)
      else if ParentOf(Canon(OrganizationBaseDN(c)), req) then PersonBindOutcome(p, es, rows, req, credentials)
      else Outcome(InsufficientAccessRights, rows)
  }

  /** The bind handler. */
  method Bind(c: Config, p: Primitives, provider: seq<Entry>, t: Table, dn: string, credentials: string) returns (v: Verdict)
    modifies t
    ensures BindOutcome(c, p, Shapes(provider), old(t.rows), dn, credentials) == Outcome(v, t.rows)
  {
    var req := Canon(dn);
    var parent := Parent(req);
    if parent.None? {
      return Throws;
    }
    if parent.value == Canon(c.rootDN) {
      var name := CommonName(req);
      if name.None? {
        return Throws;
      }
      v := if ValidateAdminPassword(c, name.value, credentials) then Proceed else InvalidCredentials;
      return;
    }
    if !ParentOf(Canon(OrganizationBaseDN(c)), req) {
      return InsufficientAccessRights;
    }
    v := BindPerson(p, provider, t, req, credentials);
  }

  /** The person branch of the bind handler. */
  method BindPerson(p: Primitives, provider: seq<Entry>, t: Table, req: DN, credentials: string) returns (v: Verdict)
    modifies t
    ensures PersonBindOutcome(p, Shapes(provider), old(t.rows), req, credentials) == Outcome(v, t.rows)
  {
    var es := Shapes(provider);
    var matched := PersonMatch(req, es);
    if matched.None? {
      return InvalidCredentials;
    }
    v := CheckPassword(p, t, es[matched.value].1, credentials);
  }

  /** The password check of a person bind, as the handler runs it. */
  method CheckPassword(p: Primitives, t: Table, person: Attributes, credentials: string) returns (v: Verdict)
    modifies t
    ensures CheckOutcome(p, old(t.rows), person, credentials) == Outcome(v, t.rows)
  {
    var uid := UidOf(person);
    var record := GetDBRecordForUserId(t, uid);
    if !Truthy(record, "password") {
      record := record["password" := Fallback(person)];
      if uid in t.rows {
        t.rows := t.rows[uid := record];
      }
    }
    match record["password"]
    case Null => v := Throws;
    case Text(secret) => v := if ValidateUserPassword(p, secret, credentials) then Proceed else InvalidCredentials;
  }

  /** An admin's DN, under the stated conditions on its name, is the
      component `cn=<name>` above the root DN's components. */
  lemma CanonAdminDN(c: Config, a: Admin)
    requires c.rootDN != "" && ',' !in a.commonName
    requires Lower(a.commonName) == a.commonName && Trim(a.commonName) == a.commonName
    ensures Canon(AdminDN(c, a)) == [Rdn("cn", a.commonName)] + Canon(c.rootDN)
  {
    CanonJoin("cn=" + a.commonName, c.rootDN);
    CanonSingle("cn=" + a.commonName);
    ParseLowerCnRdn(a.commonName);
  }

  /** Lower-casing `cn=<name>` keeps it when the name is in lower case. */
  lemma ParseLowerCnRdn(name: string)
    requires Lower(name) == name && Trim(name) == name
    ensures ParseRdn(Lower("cn=" + name)) == Rdn("cn", name)
  {
    LowerConcat("cn=", name);
    assert Lower("cn=") == "cn=";
    ParseCnRdn(name);
  }

  /** `cn=<name>` parses to the component it spells. */
  lemma ParseCnRdn(name: string)
    requires Trim(name) == name
    ensures ParseRdn("cn=" + name) == Rdn("cn", name)
  {
    var s := "cn=" + name;
    CnEqualsAt(name);
    CnSlices(name);
    CnKeyword();
    assert ParseRdn(s) == Rdn(Lower(Trim(s[..2])), Trim(s[3..]));
  }

  /** The first '=' of `cn=<name>` is its third character. */
  lemma CnEqualsAt(name: string)
    ensures IndexOf("cn=" + name, '=') == 2
  {
    var s := "cn=" + name;
    assert s[0] == 'c' && s[1] == 'n' && s[2] == '=';
    assert '=' !in s[..2] by {
      assert s[..2] == ['c', 'n'];
    }
  }

  /** The pieces of `cn=<name>` on either side of its '='. */
  lemma CnSlices(name: string)
    ensures ("cn=" + name)[..2] == "cn" && ("cn=" + name)[3..] == name
  {
  }

  /** The keyword `cn` is already trimmed and in lower case. */
  lemma CnKeyword()
    ensures Lower(Trim("cn")) == "cn"
  {
    assert TrimStart("cn") == "cn";
    assert TrimEnd("cn") == "cn";
    assert Lower("cn") == "cn";
  }

  /** An admin whose name is written in lower case, without ',' and
      without surrounding white space, binds under its entry's DN exactly
      with its password, provided no earlier admin has the same name. */
  lemma AdminBind(c: Config, p: Primitives, es: seq<(string, Attributes)>, rows: map<string, Record>,
                  i: nat, credentials: string)
    requires c.rootDN != "" && i < |c.admins|
    requires FirstAdmin(c.admins, c.admins[i].commonName) == Some(i)
    requires ',' !in c.admins[i].commonName && Lower(c.admins[i].commonName) == c.admins[i].commonName
    requires Trim(c.admins[i].commonName) == c.admins[i].commonName
    ensures BindOutcome(c, p, es, rows, AdminDN(c, c.admins[i]), credentials)
              == Outcome(if credentials == c.admins[i].password then Proceed else InvalidCredentials, rows)
  {
    CanonAdminDN(c, c.admins[i]);
  }

  /** The characters of the pieces of a split come from the string. */
  lemma {:induction false} SplitPiecesFrom(s: string, c: char)
    ensures forall i, ch :: 0 <= i < |Split(s, c)| && ch in Split(s, c)[i] ==> ch in s
    decreases |s|
  {
    if |s| > 0 {
      var rest := Split(s[1..], c);
      SplitPiecesFrom(s[1..], c);
      forall i, ch | 0 <= i < |Split(s, c)| && ch in Split(s, c)[i] ensures ch in s {
        if s[0] == c {
          if i > 0 {
            assert Split(s, c)[i] == rest[i - 1];
            assert ch in s[1..];
          }
        } else if i == 0 {
          assert Split(s, c)[0] == [s[0]] + rest[0];
          if ch != s[0] {
            assert ch in rest[0] && ch in s[1..];
          }
        } else {
          assert Split(s, c)[i] == rest[i];
          assert ch in s[1..];
        }
      }
    }
  }

  /** Text `toLowerCase` leaves alone. */
  predicate LowerCased(s: string)
  {
    forall ch :: ch in s ==> LowerChar(ch) == ch
  }

  /** A lower-cased string is lower-cased. */
  lemma LowerIsLowerCased(s: string)
    ensures LowerCased(Lower(s))
  {
    forall ch | ch in Lower(s) ensures LowerChar(ch) == ch {
      var i :| 0 <= i < |s| && Lower(s)[i] == ch;
    }
  }

  /** The value of a component parsed from lower-cased text is lower-cased. */
  lemma ParseRdnLowerCased(piece: string)
    requires LowerCased(piece)
    ensures LowerCased(ParseRdn(piece).value)
  {
    var j := IndexOf(piece, '=');
    if j >= 0 {
      forall ch | ch in ParseRdn(piece).value ensures LowerChar(ch) == ch {
        assert ch in piece[j + 1..];
      }
    }
  }

  /** Every component value of a canonical DN is in lower case. */
  lemma CanonLowerCased(dn: string)
    ensures forall k :: 0 <= k < |Canon(dn)| ==> LowerCased(Canon(dn)[k].value)
  {
    var s := Lower(dn);
    LowerIsLowerCased(dn);
    if s != "" {
      var pieces := Split(s, ',');
      SplitPiecesFrom(s, ',');
      forall k | 0 <= k < |pieces| ensures LowerCased(ParseRdn(pieces[k]).value) {
        assert LowerCased(pieces[k]) by {
          forall ch | ch in pieces[k] ensures LowerChar(ch) == ch {
            assert ch in s;
          }
        }
        ParseRdnLowerCased(pieces[k]);
      }
    }
  }

  /** Admin bind lower-cases the DN first, so an admin whose name holds an
      upper-case letter never binds: a successful admin bind matched an
      admin whose name is in lower case. */
  lemma AdminBindNeedsLowerCase(c: Config, dn: string, credentials: string)
    requires AdminBindVerdict(c, Canon(dn), credentials) == Proceed
    ensures exists i :: 0 <= i < |c.admins| && LowerCased(c.admins[i].commonName) && c.admins[i].password == credentials
  {
    CanonLowerCased(dn);
    var name := CommonName(Canon(dn)).value;
    var i := FirstAdmin(c.admins, name).value;
    assert c.admins[i].commonName == name;
  }

  /** A person with a stored, truthy password binds exactly with a
      credential that password accepts, and the bind leaves the table
      alone. */
  lemma PersonBind(p: Primitives, es: seq<(string, Attributes)>, rows: map<string, Record>, req: DN, credentials: string)
    requires PersonMatch(req, es).Some?
    requires UidOf(es[PersonMatch(req, es).value].1) in rows
    requires Truthy(rows[UidOf(es[PersonMatch(req, es).value].1)], "password")
    ensures PersonBindOutcome(p, es, rows, req, credentials)
              == Outcome(if ValidateUserPassword(p, rows[UidOf(es[PersonMatch(req, es).value].1)]["password"].s, credentials)
                         then Proceed else InvalidCredentials, rows)
  {
    var uid := UidOf(es[PersonMatch(req, es).value].1);
    assert rows[uid := rows[uid]] == rows;
  }

  /** Without a truthy stored password a person binds against the entry's
      `userPassword`, which a stored record then keeps. */
  lemma PersonBindFallback(p: Primitives, es: seq<(string, Attributes)>, rows: map<string, Record>, req: DN, credentials: string)
    requires PersonMatch(req, es).Some?
    requires !Truthy(RecordFor(rows, UidOf(es[PersonMatch(req, es).value].1)), "password")
    requires "userPassword" in es[PersonMatch(req, es).value].1
    requires es[PersonMatch(req, es).value].1["userPassword"].Str?
    ensures PersonBindOutcome(p, es, rows, req, credentials).verdict == Proceed <==>
              ValidateUserPassword(p, es[PersonMatch(req, es).value].1["userPassword"].s, credentials)
    ensures var uid := UidOf(es[PersonMatch(req, es).value].1);
            uid in rows ==> uid in PersonBindOutcome(p, es, rows, req, credentials).rows &&
                            PersonBindOutcome(p, es, rows, req, credentials).rows[uid] ==
                              rows[uid]["password" := Text(es[PersonMatch(req, es).value].1["userPassword"].s)]
  {
  }

  // ---------------------------------------------------------------------------
  // Modify

  /** One change of a modify request: its operation, the attribute type
      and the values. */
  datatype Change = Change(operation: string, attribute: string, vals: seq<string>)

  /** What one change does to the store: nothing, a save of some fields,
      or a throw. */
  datatype Step = Skip | Save(data: Record) | Crash

  /** The step of one change, hashing a new password with `salt` unless it
      is already in the `{SSHA256}` form. A password change without a value
      throws; an otp secret without one is saved as null. */
  function StepOf(p: Primitives, ch: Change, salt: Bytes): (r: Step)
    ensures ch.operation != "replace" ==> r == Skip
    ensures r.Save? ==> |r.data| == 1 && "uid" !in r.data
  {
    if ch.operation == "replace" && ch.attribute == "userpassword" then
      if |ch.vals| == 0 then Crash
      else Save(map["password" := Text(if HasPrefix(ch.vals[0]) then ch.vals[0] else Stored(p, ch.vals[0], salt))])
    else if ch.operation == "replace" && ch.attribute == "otpsecret" then
      Save(map["otpsecret" := if |ch.vals| == 0 then Null else Text(ch.vals[0])])
    else Skip
  }

  /** The table after the changes from index `k` on, each saved under
      `uid`, and whether one of them threw (which ends the loop). The
      change at index `k` draws its salt with `draws(k)`. */
  function ApplyAll(p: Primitives, rows: map<string, Record>, uid: string, changes: seq<Change>,
                    draws: nat -> (nat -> byte), k: nat): (r: (map<string, Record>, bool))
    decreases |changes|
  {
    if |changes| == 0 then (rows, false)
    else match StepOf(p, changes[0], SaltOf(draws(k)))
      case Crash => (rows, true)
      case Skip => ApplyAll(p, rows, uid, changes[1..], draws, k + 1)
      case Save(data) => ApplyAll(p, Saved(rows, uid, data), uid, changes[1..], draws, k + 1)
  }

  /** The modify handler on a target DN, after `authorize`: the bind DN's
      `cn` must be an admin allowed to modify entries; a target that names
      no person is a success without writes. */
  function ModifyOutcome(c: Config, p: Primitives, es: seq<(string, Attributes)>, rows: map<string, Record>,
                         bindDN: string, target: DN, changes: seq<Change>, draws: nat -> (nat -> byte)): (r: Outcome)
    ensures Authorize(bindDN, c.rootDN, OtherRequest) != Proceed ==>
              r == Outcome(Authorize(bindDN, c.rootDN, OtherRequest), rows)
    ensures r.rows == rows || r == ChangesOutcome(p, es, rows, target, changes, draws)
  {
    var auth := Authorize(bindDN, c.rootDN, OtherRequest);
    if auth != Proceed then Outcome(auth, rows)
    else match CommonName(ParseDN(bindDN))
      case None => Outcome(Throws, rows)
      case Some(username) =>
        if !ValidateAdminPermission(c, username, "canModifyEntry") then Outcome(InsufficientAccessRights, rows)
        else ChangesOutcome(p, es, rows, target, changes, draws)
  }

  /** The handler once the bind DN may modify: the changes land on the person
      the target names, and a target that names no person is left alone. */
  function ChangesOutcome(p: Primitives, es: seq<(string, Attributes)>, rows: map<string, Record>,
                          target: DN, changes: seq<Change>, draws: nat -> (nat -> byte)): (r: Outcome)
    ensures PersonMatch(target, es).None? ==> r == Outcome(Proceed, rows)
    ensures r.rows != rows ==> PersonMatch(target, es).Some?
  {
    match PersonMatch(target, es)
    case None => Outcome(Proceed, rows)
    case Some(i) =>
      var applied := ApplyAll(p, rows, UidOf(es[i].1), changes, draws, 0);
      Outcome(if applied.1 then Throws else Proceed, applied.0)
  }

  /** The bind DN is an admin allowed to modify entries. */
  predicate MayModify(c: Config, bindDN: string)
  {
    && Authorize(bindDN, c.rootDN, OtherRequest) == Proceed
    && CommonName(ParseDN(bindDN)).Some?
    && ValidateAdminPermission(c, CommonName(ParseDN(bindDN)).value, "canModifyEntry")
  }

  /** The modify route: `authorize`, then the handler. */
  method Modify(c: Config, p: Primitives, provider: seq<Entry>, t: Table, bindDN: string, dn: string,
                changes: seq<Change>, draws: nat -> (nat -> byte)) returns (v: Verdict)
    modifies t
    ensures ModifyOutcome(c, p, Shapes(provider), old(t.rows), bindDN, Canon(dn), changes, draws) == Outcome(v, t.rows)
  {
    v := Authorize(bindDN, c.rootDN, OtherRequest);
    if v != Proceed {
      return;
    }
    var username := CommonName(ParseDN(bindDN));
    if username.None? {
      return Throws;
    }
    if !ValidateAdminPermission(c, username.value, "canModifyEntry") {
      return InsufficientAccessRights;
    }
    v := ModifyPerson(p, provider, t, Canon(dn), changes, draws);
  }

  /** The handler's search for the target among the people, then the loop
      over the changes. */
  method ModifyPerson(p: Primitives, provider: seq<Entry>, t: Table, target: DN,
                      changes: seq<Change>, draws: nat -> (nat -> byte)) returns (v: Verdict)
    modifies t
    ensures ChangesOutcome(p, Shapes(provider), old(t.rows), target, changes, draws) == Outcome(v, t.rows)
  {
    var es := Shapes(provider);
    var matched := PersonMatch(target, es);
    if matched.None? {
      return Proceed;
    }
    v := ApplyChanges(p, t, UidOf(es[matched.value].1), changes, draws);
  }

  /** The loop over the changes of a modify request, saving under `uid`. */
  method ApplyChanges(p: Primitives, t: Table, uid: string, changes: seq<Change>, draws: nat -> (nat -> byte))
    returns (v: Verdict)
    modifies t
    ensures var applied := ApplyAll(p, old(t.rows), uid, changes, draws, 0);
            t.rows == applied.0 && v == (if applied.1 then Throws else Proceed)
  {
    ghost var goal := ApplyAll(p, t.rows, uid, changes, draws, 0);
    var i := 0;
    while i < |changes|
      invariant 0 <= i <= |changes|
      invariant ApplyAll(p, t.rows, uid, changes[i..], draws, i) == goal
    {
      var ch := changes[i];
      assert changes[i..][0] == ch && changes[i..][1..] == changes[i + 1..];
      if ch.operation == "replace" && ch.attribute == "userpassword" {
        if |ch.vals| == 0 {
          return Throws;
        }
        var newpass := ch.vals[0];
        if !HasPrefix(newpass) {
          newpass := StoreUserPassword(p, newpass, draws(i));
        }
        SaveDBRecordForUserId(t, uid, map["password" := Text(newpass)]);
      }
      if ch.operation == "replace" && ch.attribute == "otpsecret" {
        var newsecret := if |ch.vals| == 0 then Null else Text(ch.vals[0]);
        SaveDBRecordForUserId(t, uid, map["otpsecret" := newsecret]);
      }
      i := i + 1;
    }
    assert changes[i..] == [];
    v := Proceed;
  }

  /** A permitted modify of a person applies the changes under the person's
      uid; one of another target writes nothing. */
  lemma ModifyPermitted(c: Config, p: Primitives, es: seq<(string, Attributes)>, rows: map<string, Record>,
                        bindDN: string, target: DN, changes: seq<Change>, draws: nat -> (nat -> byte))
    requires MayModify(c, bindDN)
    ensures PersonMatch(target, es).None? ==> ModifyOutcome(c, p, es, rows, bindDN, target, changes, draws) == Outcome(Proceed, rows)
    ensures PersonMatch(target, es).Some? ==>
              var applied := ApplyAll(p, rows, UidOf(es[PersonMatch(target, es).value].1), changes, draws, 0);
              ModifyOutcome(c, p, es, rows, bindDN, target, changes, draws).rows == applied.0
  {
  }

  /** The changes write only under the matched person's uid. */
  lemma {:induction false} ApplyAllKeepsOthers(p: Primitives, rows: map<string, Record>, uid: string, changes: seq<Change>,
                                               draws: nat -> (nat -> byte), k: nat, other: string)
    requires other != uid
    ensures RecordFor(ApplyAll(p, rows, uid, changes, draws, k).0, other) == RecordFor(rows, other)
    decreases |changes|
  {
    if |changes| > 0 {
      match StepOf(p, changes[0], SaltOf(draws(k)))
      case Crash =>
      case Skip => ApplyAllKeepsOthers(p, rows, uid, changes[1..], draws, k + 1, other);
      case Save(data) =>
        SaveKeepsOthers(rows, uid, data, other);
        ApplyAllKeepsOthers(p, Saved(rows, uid, data), uid, changes[1..], draws, k + 1, other);
    }
  }

  /** A modify changes no record but the matched person's. */
  lemma ModifyKeepsOthers(c: Config, p: Primitives, es: seq<(string, Attributes)>, rows: map<string, Record>,
                          bindDN: string, target: DN, changes: seq<Change>, draws: nat -> (nat -> byte), other: string)
    requires PersonMatch(target, es).Some? ==> other != UidOf(es[PersonMatch(target, es).value].1)
    ensures RecordFor(ModifyOutcome(c, p, es, rows, bindDN, target, changes, draws).rows, other) == RecordFor(rows, other)
  {
    ChangesKeepOthers(p, es, rows, target, changes, draws, other);
  }

  /** The handler's changes leave every record but the matched person's. */
  lemma ChangesKeepOthers(p: Primitives, es: seq<(string, Attributes)>, rows: map<string, Record>,
                          target: DN, changes: seq<Change>, draws: nat -> (nat -> byte), other: string)
    requires PersonMatch(target, es).Some? ==> other != UidOf(es[PersonMatch(target, es).value].1)
    ensures RecordFor(ChangesOutcome(p, es, rows, target, changes, draws).rows, other) == RecordFor(rows, other)
  {
    var m := PersonMatch(target, es);
    if m.Some? {
      ApplyAllKeepsOthers(p, rows, UidOf(es[m.value].1), changes, draws, 0, other);
    }
  }

  /** A bind DN whose `cn` names no admin allowed to modify entries gets
      `InsufficientAccessRights` and writes nothing. */
  lemma ModifyNeedsPermission(c: Config, p: Primitives, es: seq<(string, Attributes)>, rows: map<string, Record>,
                              bindDN: string, target: DN, changes: seq<Change>, draws: nat -> (nat -> byte))
    requires Authorize(bindDN, c.rootDN, OtherRequest) == Proceed
    requires CommonName(ParseDN(bindDN)).Some?
    requires !ValidateAdminPermission(c, CommonName(ParseDN(bindDN)).value, "canModifyEntry")
    ensures ModifyOutcome(c, p, es, rows, bindDN, target, changes, draws) == Outcome(InsufficientAccessRights, rows)
  {
  }

  /** A single replace of `userpassword` saves the value if it is already
      hashed, otherwise its hash under the first salt. */
  lemma OnePasswordChange(p: Primitives, rows: map<string, Record>, uid: string, pw: string, draws: nat -> (nat -> byte))
    ensures ApplyAll(p, rows, uid, [Change("replace", "userpassword", [pw])], draws, 0)
              == (Saved(rows, uid, map["password" := Text(if HasPrefix(pw) then pw else Stored(p, pw, SaltOf(draws(0))))]), false)
  {
    var chs := [Change("replace", "userpassword", [pw])];
    assert chs[1..] == [];
  }

  /** A replace of `otpsecret` stores the value verbatim. */
  lemma OtpSecretVerbatim(p: Primitives, rows: map<string, Record>, uid: string, secret: string, draws: nat -> (nat -> byte))
    ensures var after := RecordFor(ApplyAll(p, rows, uid, [Change("replace", "otpsecret", [secret])], draws, 0).0, uid);
            "otpsecret" in after && after["otpsecret"] == Text(secret)
  {
    var chs := [Change("replace", "otpsecret", [secret])];
    assert chs[1..] == [];
    var data := map["otpsecret" := Text(secret)];
    assert StepOf(p, chs[0], SaltOf(draws(0))) == Save(data);
    assert ApplyAll(p, rows, uid, chs, draws, 0) == (Saved(rows, uid, data), false);
    SaveThenGet(rows, uid, data);
  }

  /** Round trip at the person level: after a plain password `pw` is
      stored for the matched person, the person binds with `pw`. */
  lemma PasswordChangeThenPersonBind(p: Primitives, es: seq<(string, Attributes)>, rows: map<string, Record>,
                                     req: DN, pw: string, draws: nat -> (nat -> byte))
    requires Base64RoundTrips(p)
    requires PersonMatch(req, es).Some?
    requires !HasPrefix(pw)
    ensures var uid := UidOf(es[PersonMatch(req, es).value].1);
            PersonBindOutcome(p, es, ApplyAll(p, rows, uid, [Change("replace", "userpassword", [pw])], draws, 0).0, req, pw).verdict
              == Proceed
  {
    var uid := UidOf(es[PersonMatch(req, es).value].1);
    var salt := SaltOf(draws(0));
    var data := map["password" := Text(Stored(p, pw, salt))];
    OnePasswordChange(p, rows, uid, pw, draws);
    var after := Saved(rows, uid, data);
    SaveThenGet(rows, uid, data);
    assert uid in after;
    assert Truthy(after[uid], "password");
    RoundTrip(p, pw, salt);
    PersonBind(p, es, after, req, pw);
  }

  /** Round trip through the server: after an admin with the right to
      modify sets a person's password to a plain `pw`, the modify succeeds
      and the person binds with `pw`. */
  lemma PasswordChangeThenBind(c: Config, p: Primitives, es: seq<(string, Attributes)>, rows: map<string, Record>,
                               bindDN: string, dn: string, pw: string, draws: nat -> (nat -> byte))
    requires Base64RoundTrips(p)
    requires MayModify(c, bindDN)
    requires Parent(Canon(dn)).Some? && Parent(Canon(dn)) != Some(Canon(c.rootDN))
    requires ParentOf(Canon(OrganizationBaseDN(c)), Canon(dn))
    requires PersonMatch(Canon(dn), es).Some?
    requires !HasPrefix(pw)
    ensures var modified := ModifyOutcome(c, p, es, rows, bindDN, Canon(dn), [Change("replace", "userpassword", [pw])], draws);
            modified.verdict == Proceed && BindOutcome(c, p, es, modified.rows, dn, pw).verdict == Proceed
  {
    var chs := [Change("replace", "userpassword", [pw])];
    ModifyPermitted(c, p, es, rows, bindDN, Canon(dn), chs, draws);
    OnePasswordChange(p, rows, UidOf(es[PersonMatch(Canon(dn), es).value].1), pw, draws);
    PasswordChangeThenPersonBind(p, es, rows, Canon(dn), pw, draws);
  }
}
