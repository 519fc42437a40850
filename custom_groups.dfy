/** lib/utilities/custom_groups.js: the groups configured by hand. Each is
    a group entry under `ou=CustomGroups` whose members are the provider
    entries carrying one of its configured addresses. Membership is
    recorded on both sides, so the provider's own person entries gain
    `memberOf` items; they are shared objects here as in the source. The
    configuration and the provider's entry list are parameters. */
module CustomGroups {
  import opened Common
  import opened Entries
  import opened Ldap

  /** One configured custom group: its name and its members' addresses. */
  datatype CustomGroup = CustomGroup(name: string, members: seq<string>)

  /** The DN passed to `makeGroupEntry` for the base group. */
  const BaseDN: string := "ou=CustomGroups"

  /** The DN passed to `makeGroupEntry` for a configured group. */
  function CustomDN(g: CustomGroup): string
  {
    "ou=" + g.name + "," + BaseDN
  }

  /** The full DN of a configured group's entry. */
  function GroupDN(c: Config, g: CustomGroup): string
  {
    GroupEntryDN(c, CustomDN(g))
  }

  /** `g.members.indexOf(o.attributes.mail) >= 0`: only a string `mail`
      can equal one of the configured strings. */
  predicate Matches(g: CustomGroup, a: Attributes)
  {
    "mail" in a && a["mail"].Str? && a["mail"].s in g.members
  }

  /** An entry `addMemberToGroup` can take as a member of any group it
      matches: one with a `memberOf` list (the source throws on the others). */
  predicate Enrollable(gs: seq<CustomGroup>, a: Attributes)
  {
    HasList(a, "memberOf") || forall i :: 0 <= i < |gs| ==> !Matches(gs[i], a)
  }

  // ---------------------------------------------------------------------------
  // What the groups hold

  /** The DNs of the matching entries, in the order of the entry list. */
  function MatchedDns(g: CustomGroup, shapes: seq<(string, Attributes)>): (r: seq<string>)
    ensures forall x :: x in r <==> exists k :: 0 <= k < |shapes| && Matches(g, shapes[k].1) && x == shapes[k].0
    decreases |shapes|
  {
    if |shapes| == 0 then []
    else
      var n := |shapes| - 1;
      var front := MatchedDns(g, shapes[..n]);
      assert forall k :: 0 <= k < n ==> shapes[..n][k] == shapes[k];
      front + (if Matches(g, shapes[n].1) then [shapes[n].0] else [])
  }

  /** The full DNs of the configured groups, in configuration order. */
  function CustomDns(c: Config, gs: seq<CustomGroup>): (r: seq<string>)
    ensures |r| == |gs|
  {
    seq(|gs|, i requires 0 <= i < |gs| => GroupDN(c, gs[i]))
  }

  /** The base group: every configured group is a member, each DN once. */
  function BaseAttributes(c: Config, gs: seq<CustomGroup>): Attributes
  {
    GroupAttributes(BaseDN, "CustomGroups", AddAll([], CustomDns(c, gs)), map[])
  }

  /** A configured group whose members have the given DNs; it is itself a
      member of the base group. */
  function GroupState(c: Config, g: CustomGroup, memberDns: seq<string>): Attributes
  {
    GroupAttributes(CustomDN(g), g.name, memberDns, map[])["memberOf" := Strs([GroupEntryDN(c, BaseDN)])]
  }

  /** The attributes of a configured group once built from the entries. */
  function CustomAttributes(c: Config, g: CustomGroup, shapes: seq<(string, Attributes)>): Attributes
  {
    GroupState(c, g, AddAll([], MatchedDns(g, shapes)))
  }

  /** What the configured group's attributes hold: `cn` and `ou` are the
      name, `memberOf` the base group alone, and `member` lists, each once,
      the DNs of exactly the entries whose `mail` is configured for it. */
  lemma CustomAttributesMeaning(c: Config, g: CustomGroup, shapes: seq<(string, Attributes)>, x: string)
    ensures var a := CustomAttributes(c, g, shapes);
            && a["cn"] == Str(g.name) && a["ou"] == Str(g.name) && a["entryDN"] == Str(CustomDN(g))
            && ListOf(a, "memberOf") == [GroupEntryDN(c, BaseDN)]
            && Distinct(ListOf(a, "member"))
            && (x in ListOf(a, "member") <==> exists k :: 0 <= k < |shapes| && Matches(g, shapes[k].1) && x == shapes[k].0)
  {
    var dns := MatchedDns(g, shapes);
    assert Distinct<string>([]);
    AddAllDistinct([], dns);
    assert ListOf(CustomAttributes(c, g, shapes), "member") == AddAll([], dns);
  }

  /** What the base group's attributes hold: its `member` list holds, each
      once, the DNs of exactly the configured groups. */
  lemma BaseAttributesMeaning(c: Config, gs: seq<CustomGroup>, x: string)
    ensures var a := BaseAttributes(c, gs);
            && a["cn"] == Str("CustomGroups") && ListOf(a, "memberOf") == []
            && Distinct(ListOf(a, "member"))
            && (x in ListOf(a, "member") <==> exists i :: 0 <= i < |gs| && x == GroupDN(c, gs[i]))
  {
    assert Distinct<string>([]);
    var dns := CustomDns(c, gs);
    AddAllDistinct([], dns);
    assert ListOf(BaseAttributes(c, gs), "member") == AddAll([], dns);
    if x in dns {
      var i :| 0 <= i < |dns| && dns[i] == x;
      assert x == GroupDN(c, gs[i]);
    }
    if exists i :: 0 <= i < |gs| && x == GroupDN(c, gs[i]) {
      var i :| 0 <= i < |gs| && x == GroupDN(c, gs[i]);
      assert dns[i] == x;
    }
  }

  // ---------------------------------------------------------------------------
  // What the provider entries gain

  /** The attributes of a provider entry that had `a` once the first `n`
      configured groups are built: each group it matches, in order, is
      recorded in its `memberOf` list by `addMemberToGroup`. */
  function Enroll(c: Config, gs: seq<CustomGroup>, n: nat, a: Attributes): Attributes
    requires n <= |gs|
  {
    if n == 0 then a
    else
      var prev := Enroll(c, gs, n - 1, a);
      if Matches(gs[n - 1], a) then WithMemberOf(prev, GroupDN(c, gs[n - 1])) else prev
  }

  /** Enrolment touches only the `memberOf` list: the `mail`, and so which
      groups an entry matches, is unchanged, and a list stays a list. */
  lemma {:induction false} EnrollKeeps(c: Config, gs: seq<CustomGroup>, n: nat, a: Attributes)
    requires n <= |gs|
    ensures var r := Enroll(c, gs, n, a);
            && (forall k :: k in a && k != "memberOf" ==> k in r && r[k] == a[k])
            && SameMail(r, a)
            && (HasList(a, "memberOf") ==> HasList(r, "memberOf"))
  {
    if n > 0 {
      EnrollKeeps(c, gs, n - 1, a);
    }
  }

  /** What an entry ends with: its `memberOf` list holds what it held plus
      the DN of every configured group among the first `n` whose addresses
      include its `mail`, and nothing else; a list without repetitions
      stays without repetitions. */
  lemma {:induction false} EnrollMeaning(c: Config, gs: seq<CustomGroup>, n: nat, a: Attributes, y: string)
    requires n <= |gs|
    ensures var r := Enroll(c, gs, n, a);
            && (y in ListOf(r, "memberOf") <==>
                  y in ListOf(a, "memberOf") || exists i :: 0 <= i < n && Matches(gs[i], a) && y == GroupDN(c, gs[i]))
            && (Distinct(ListOf(a, "memberOf")) ==> Distinct(ListOf(r, "memberOf")))
  {
    if n > 0 {
      var prev := Enroll(c, gs, n - 1, a);
      EnrollMeaning(c, gs, n - 1, a, y);
      if Matches(gs[n - 1], a) {
        var x := GroupDN(c, gs[n - 1]);
        assert ListOf(Enroll(c, gs, n, a), "memberOf") == AddOnce(ListOf(prev, "memberOf"), x);
        if Distinct(ListOf(a, "memberOf")) {
          AddOnceDistinct(ListOf(prev, "memberOf"), x);
        }
      }
    }
  }

  /** An entry already holding the DNs of the groups it matches gains
      nothing. */
  lemma {:induction false} EnrollPresent(c: Config, gs: seq<CustomGroup>, n: nat, b: Attributes)
    requires n <= |gs| && HasList(b, "memberOf")
    requires forall i :: 0 <= i < n && Matches(gs[i], b) ==> GroupDN(c, gs[i]) in ListOf(b, "memberOf")
    ensures Enroll(c, gs, n, b) == b
  {
    if n > 0 {
      EnrollPresent(c, gs, n - 1, b);
    }
  }

  /** Building the groups again over the entries already enrolled adds no
      duplicate edges: `addMemberToGroup` pushes only absent DNs. */
  lemma EnrollIdempotent(c: Config, gs: seq<CustomGroup>, n: nat, a: Attributes)
    requires n <= |gs| && HasList(a, "memberOf")
    ensures Enroll(c, gs, n, Enroll(c, gs, n, a)) == Enroll(c, gs, n, a)
  {
    var b := Enroll(c, gs, n, a);
    EnrollKeeps(c, gs, n, a);
    forall i | 0 <= i < n && Matches(gs[i], b) ensures GroupDN(c, gs[i]) in ListOf(b, "memberOf") {
      EnrollMeaning(c, gs, n, a, GroupDN(c, gs[i]));
    }
    EnrollPresent(c, gs, n, b);
  }

  /** The entries hold the attributes of their originals `orig` once the
      first `n` configured groups are built. */
  predicate EnrolledUpTo(c: Config, gs: seq<CustomGroup>, n: nat, entries: seq<Entry>, orig: map<Entry, Attributes>)
    requires n <= |gs|
    reads entries
  {
    forall e :: e in entries ==> e in orig && e.attributes == Enroll(c, gs, n, orig[e])
  }

  /** `shapes` records the entries with the attributes `orig` holds for them. */
  predicate ShapedAs(entries: seq<Entry>, orig: map<Entry, Attributes>, shapes: seq<(string, Attributes)>)
  {
    && |shapes| == |entries|
    && forall k :: 0 <= k < |entries| ==> entries[k] in orig && shapes[k] == (entries[k].dn, orig[entries[k]])
  }

  /** Enrolled entries still show the DNs and addresses they started with. */
  lemma EnrolledSameMails(c: Config, gs: seq<CustomGroup>, n: nat, entries: seq<Entry>,
                          orig: map<Entry, Attributes>, shapes: seq<(string, Attributes)>)
    requires n <= |gs| && EnrolledUpTo(c, gs, n, entries, orig) && ShapedAs(entries, orig, shapes)
    ensures SameMails(Shapes(entries), shapes)
  {
    forall k | 0 <= k < |entries| ensures SameMail(entries[k].attributes, orig[entries[k]]) {
      assert entries[k] in entries;
      EnrollKeeps(c, gs, n, orig[entries[k]]);
    }
  }

  // ---------------------------------------------------------------------------
  // Building the groups

  /** `allEntries.filter(...)`: the entries that match, in order. */
  function Matching(g: CustomGroup, es: seq<Entry>): (r: seq<Entry>)
    reads es
    ensures forall k :: 0 <= k < |r| ==> r[k] in es && Matches(g, r[k].attributes)
    ensures forall k :: 0 <= k < |es| && Matches(g, es[k].attributes) ==> es[k] in r
    decreases |es|
  {
    if |es| == 0 then []
    else
      var n := |es| - 1;
      var front := Matching(g, es[..n]);
      assert forall k :: 0 <= k < n ==> es[..n][k] == es[k];
      front + (if Matches(g, es[n].attributes) then [es[n]] else [])
  }

  /** The entries of the list that match are exactly the filtered ones. */
  lemma MatchingMembers(g: CustomGroup, es: seq<Entry>)
    ensures forall e :: e in es ==> (e in Matching(g, es) <==> Matches(g, e.attributes))
  {
    forall e | e in es ensures e in Matching(g, es) <==> Matches(g, e.attributes) {
      var k :| 0 <= k < |es| && es[k] == e;
    }
  }

  /** The DNs of `es`, in order. */
  function DnsOf(es: seq<Entry>): (r: seq<string>)
    ensures |r| == |es| && forall k :: 0 <= k < |es| ==> r[k] == es[k].dn
  {
    seq(|es|, k requires 0 <= k < |es| => es[k].dn)
  }

  lemma {:induction false} MatchingDns(g: CustomGroup, es: seq<Entry>)
    ensures DnsOf(Matching(g, es)) == MatchedDns(g, Shapes(es))
    decreases |es|
  {
    if |es| > 0 {
      var n := |es| - 1;
      MatchingDns(g, es[..n]);
      var shapes := Shapes(es);
      assert shapes[..n] == Shapes(es[..n]) && shapes[n] == (es[n].dn, es[n].attributes);
      var tail := if Matches(g, es[n].attributes) then [es[n]] else [];
      DnsOfAppend(Matching(g, es[..n]), tail);
      assert DnsOf(tail) == if Matches(g, shapes[n].1) then [shapes[n].0] else [];
    }
  }

  lemma DnsOfAppend(a: seq<Entry>, b: seq<Entry>)
    ensures DnsOf(a + b) == DnsOf(a) + DnsOf(b)
  {
  }

  lemma WithMemberState(c: Config, g: CustomGroup, memberDns: seq<string>, x: string)
    ensures WithMember(GroupState(c, g, memberDns), x) == GroupState(c, g, AddOnce(memberDns, x))
  {
  }

  lemma CustomDnsSnoc(c: Config, gs: seq<CustomGroup>, g: CustomGroup)
    ensures CustomDns(c, gs + [g]) == CustomDns(c, gs) + [GroupDN(c, g)]
  {
  }

  lemma WithMemberGroup(dn: string, name: string, members: seq<string>, x: string)
    ensures WithMember(GroupAttributes(dn, name, members, map[]), x) == GroupAttributes(dn, name, AddOnce(members, x), map[])
  {
  }

  lemma WithMemberBase(c: Config, gs: seq<CustomGroup>, g: CustomGroup)
    ensures WithMember(BaseAttributes(c, gs), GroupDN(c, g)) == BaseAttributes(c, gs + [g])
  {
    var x := GroupDN(c, g);
    CustomDnsSnoc(c, gs, g);
    AddAllSnoc([], CustomDns(c, gs), x);
    WithMemberGroup(BaseDN, "CustomGroups", AddAll([], CustomDns(c, gs)), x);
  }

  /** The callback of `customGroups.map` for the configured group `gs[i]`:
      a new group made a member of the base group, then each provider entry
      that matches made a member of it. */
  method MakeCustomGroup(c: Config, gs: seq<CustomGroup>, i: nat, base: Entry, entries: seq<Entry>,
                         ghost orig: map<Entry, Attributes>, ghost shapes: seq<(string, Attributes)>)
      returns (ge: Entry)
    requires i < |gs| && ShapedAs(entries, orig, shapes) && EnrolledUpTo(c, gs, i, entries, orig)
    requires forall e :: e in entries ==> e in orig && Enrollable(gs, orig[e])
    requires base !in entries && base.dn == GroupEntryDN(c, BaseDN)
    requires base.attributes == BaseAttributes(c, gs[..i])
    modifies base, entries
    ensures fresh(ge) && ge != base && ge !in entries
    ensures ge.dn == GroupDN(c, gs[i])
    ensures ge.attributes == CustomAttributes(c, gs[i], shapes)
    ensures base.attributes == BaseAttributes(c, gs[..i + 1])
    ensures EnrolledUpTo(c, gs, i + 1, entries, orig)
  {
    ge := NewCustomGroup(c, gs, i, base);
    Enlist(c, gs, i, ge, entries, orig, shapes);
  }

  /** The filter and the `forEach` of the callback: every provider entry
      that matches `gs[i]` joins the new group `ge`. */
  method Enlist(c: Config, gs: seq<CustomGroup>, i: nat, ge: Entry, entries: seq<Entry>,
                ghost orig: map<Entry, Attributes>, ghost shapes: seq<(string, Attributes)>)
    requires i < |gs| && ShapedAs(entries, orig, shapes) && EnrolledUpTo(c, gs, i, entries, orig)
    requires forall e :: e in entries ==> e in orig && Enrollable(gs, orig[e])
    requires ge !in entries && ge.dn == GroupDN(c, gs[i]) && ge.attributes == GroupState(c, gs[i], [])
    modifies ge, entries
    ensures ge.attributes == CustomAttributes(c, gs[i], shapes)
    ensures EnrolledUpTo(c, gs, i + 1, entries, orig)
  {
    var members := Matching(gs[i], entries);
    MatchingDns(gs[i], entries);
    MatchingMembers(gs[i], entries);
    EnrolledSameMails(c, gs, i, entries, orig, shapes);
    MatchedDnsSame(gs[i], Shapes(entries), shapes);
    ghost var cur := map e | e in entries :: Enroll(c, gs, i, orig[e]);
    forall k | 0 <= k < |members| ensures HasList(cur[members[k]], "memberOf") {
      EnrollKeeps(c, gs, i, orig[members[k]]);
    }
    AddMembers(c, gs[i], ge, members, entries, cur);
    forall e | e in entries ensures e.attributes == Enroll(c, gs, i + 1, orig[e]) {
      EnrollKeeps(c, gs, i, orig[e]);
      assert e in members <==> Matches(gs[i], orig[e]);
    }
  }

  /** The entries hold the attributes `orig` records for them. */
  predicate Snapshot(entries: seq<Entry>, orig: map<Entry, Attributes>)
    reads entries
  {
    forall e :: e in entries ==> e in orig && e.attributes == orig[e]
  }

  /** `makeGroupEntry(...)` for a configured group, then
      `addMemberToGroup(groupEntry, baseGroupEntry)`. */
  method NewCustomGroup(c: Config, gs: seq<CustomGroup>, i: nat, base: Entry) returns (ge: Entry)
    requires i < |gs| && base.dn == GroupEntryDN(c, BaseDN) && base.attributes == BaseAttributes(c, gs[..i])
    modifies base
    ensures fresh(ge)
    ensures ge.dn == GroupDN(c, gs[i]) && ge.attributes == GroupState(c, gs[i], [])
    ensures base.attributes == WithMember(old(base.attributes), ge.dn)
    ensures base.attributes == BaseAttributes(c, gs[..i + 1])
  {
    var g := gs[i];
    ge := MakeGroupEntry(c, CustomDN(g), g.name, [], map[]);
    AddMemberToGroup(ge, base);
    WithMemberOfGroup(CustomDN(g), g.name, base.dn);
    WithMemberBase(c, gs[..i], g);
    TakeOneMore(gs, i);
  }

  /** `members.forEach(p => addMemberToGroup(p, groupEntry))`. */
  method AddMembers(c: Config, g: CustomGroup, ge: Entry, members: seq<Entry>, entries: seq<Entry>,
                    ghost orig: map<Entry, Attributes>)
    requires ge.attributes == GroupState(c, g, []) && ge !in entries
    requires Snapshot(entries, orig)
    requires forall k :: 0 <= k < |members| ==> members[k] in entries && HasList(orig[members[k]], "memberOf")
    modifies ge, members
    ensures ge.attributes == GroupState(c, g, AddAll([], DnsOf(members)))
    ensures Recorded(entries, orig, members, ge.dn)
  {
    assert members[..0] == [];
    for j := 0 to |members|
      invariant ge.attributes == GroupState(c, g, AddAll([], DnsOf(members[..j])))
      invariant Recorded(entries, orig, members[..j], ge.dn)
    {
      var p := members[j];
      ghost var before := AddAll([], DnsOf(members[..j]));
      ghost var after := AddAll([], DnsOf(members[..j + 1]));
      TakeOneMore(members, j);
      assert after == AddOnce(before, p.dn) by {
        DnsOfSnoc(members[..j], p);
        AddAllSnoc([], DnsOf(members[..j]), p.dn);
      }
      WithMemberState(c, g, before, p.dn);
      Join(p, ge, entries, orig, members[..j]);
      assert ge.attributes == GroupState(c, g, after);
    }
    assert members[..|members|] == members;
  }

  /** The provider entries hold their original attributes, with the group's
      DN recorded in the `memberOf` list of exactly those in `joined`. */
  predicate Recorded(entries: seq<Entry>, orig: map<Entry, Attributes>, joined: seq<Entry>, dn: string)
    reads entries
  {
    forall e :: e in entries ==> e in orig && e.attributes == if e in joined then WithMemberOf(orig[e], dn) else orig[e]
  }

  /** `addMemberToGroup(p, groupEntry)` for one provider entry. */
  method Join(p: Entry, ge: Entry, entries: seq<Entry>, ghost orig: map<Entry, Attributes>, ghost joined: seq<Entry>)
    requires Recorded(entries, orig, joined, ge.dn) && p in entries && ge !in entries
    requires HasList(orig[p], "memberOf") && HasList(ge.attributes, "member")
    modifies p, ge
    ensures Recorded(entries, orig, joined + [p], ge.dn)
    ensures ge.attributes == WithMember(old(ge.attributes), p.dn)
  {
    AddMemberToGroup(p, ge);
    AddMemberIdempotent(ge.attributes, orig[p], p.dn, ge.dn);
  }

  lemma WithMemberOfGroup(dn: string, name: string, x: string)
    ensures WithMemberOf(GroupAttributes(dn, name, [], map[]), x) == GroupAttributes(dn, name, [], map[])["memberOf" := Strs([x])]
  {
    assert AddOnce([], x) == [x];
  }

  lemma DnsOfSnoc(es: seq<Entry>, e: Entry)
    ensures DnsOf(es + [e]) == DnsOf(es) + [e.dn]
  {
  }

  /** Two attribute maps with the same `mail`, if any. */
  predicate SameMail(a: Attributes, b: Attributes)
  {
    ("mail" in a <==> "mail" in b) && ("mail" in a ==> a["mail"] == b["mail"])
  }

  /** Two entry lists with the same DNs and the same addresses. */
  predicate SameMails(s1: seq<(string, Attributes)>, s2: seq<(string, Attributes)>)
  {
    |s1| == |s2| && forall k :: 0 <= k < |s1| ==> s1[k].0 == s2[k].0 && SameMail(s1[k].1, s2[k].1)
  }

  /** The DNs a group matches depend only on the DNs and addresses. */
  lemma {:induction false} MatchedDnsSame(g: CustomGroup, s1: seq<(string, Attributes)>, s2: seq<(string, Attributes)>)
    requires SameMails(s1, s2)
    ensures MatchedDns(g, s1) == MatchedDns(g, s2)
    decreases |s1|
  {
    if |s1| > 0 {
      var n := |s1| - 1;
      assert SameMails(s1[..n], s2[..n]);
      MatchedDnsSame(g, s1[..n], s2[..n]);
      assert Matches(g, s1[n].1) <==> Matches(g, s2[n].1);
    }
  }

  /** `customGroups.map(...)` from the configured group `gs[i]` on: the
      group entries for `gs[i..]`, in order, with the base group and the
      provider entries updated as each is built. */
  method MakeCustomGroups(c: Config, gs: seq<CustomGroup>, i: nat, base: Entry, entries: seq<Entry>,
                          ghost orig: map<Entry, Attributes>, ghost shapes: seq<(string, Attributes)>)
      returns (groupEntries: seq<Entry>)
    requires i <= |gs| && ShapedAs(entries, orig, shapes) && EnrolledUpTo(c, gs, i, entries, orig)
    requires forall e :: e in entries ==> e in orig && Enrollable(gs, orig[e])
    requires base !in entries && base.dn == GroupEntryDN(c, BaseDN)
    requires base.attributes == BaseAttributes(c, gs[..i])
    modifies base, entries
    ensures Built(Wanted(c, gs, shapes), i, groupEntries)
    ensures forall k :: 0 <= k < |groupEntries| ==> fresh(groupEntries[k])
    ensures base.attributes == BaseAttributes(c, gs)
    ensures EnrolledUpTo(c, gs, |gs|, entries, orig)
    decreases |gs| - i
  {
    if i == |gs| {
      assert gs[..i] == gs;
      return [];
    }
    var ge := MakeCustomGroup(c, gs, i, base, entries, orig, shapes);
    var rest := MakeCustomGroups(c, gs, i + 1, base, entries, orig, shapes);
    groupEntries := [ge] + rest;
    BuiltCons(Wanted(c, gs, shapes), i, ge, rest);
    FreshCons(ge, rest);
  }

  /** The configured groups as they should be built, in order. */
  function Wanted(c: Config, gs: seq<CustomGroup>, shapes: seq<(string, Attributes)>): (r: seq<(string, Attributes)>)
    ensures |r| == |gs|
  {
    seq(|gs|, k requires 0 <= k < |gs| => (GroupDN(c, gs[k]), CustomAttributes(c, gs[k], shapes)))
  }

  /** `groupEntries` are the wanted groups from position `i` on. */
  predicate Built(want: seq<(string, Attributes)>, i: nat, groupEntries: seq<Entry>)
    reads groupEntries
  {
    && i + |groupEntries| == |want|
    && forall k :: 0 <= k < |groupEntries| ==> (groupEntries[k].dn, groupEntries[k].attributes) == want[i + k]
  }

  lemma BuiltCons(want: seq<(string, Attributes)>, i: nat, ge: Entry, rest: seq<Entry>)
    requires i < |want| && Built(want, i + 1, rest) && (ge.dn, ge.attributes) == want[i]
    ensures Built(want, i, [ge] + rest)
  {
    var ys := [ge] + rest;
    forall k | 0 <= k < |ys| ensures (ys[k].dn, ys[k].attributes) == want[i + k] {
      if k > 0 {
        assert ys[k] == rest[k - 1] && i + k == (i + 1) + (k - 1);
      }
    }
  }

  /** `getLDAPCustomGroupEntries()`: with no configuration, no entries;
      otherwise the base group followed by one group per configured entry,
      in configuration order. Each provider entry is enrolled in the groups
      whose addresses include its `mail`. */
  method GetLDAPCustomGroupEntries(c: Config, customGroups: Option<seq<CustomGroup>>, entries: seq<Entry>)
      returns (r: seq<Entry>)
    requires customGroups.Some? ==> forall e :: e in entries ==> Enrollable(customGroups.value, e.attributes)
    modifies entries
    ensures customGroups.None? ==> r == [] && forall e :: e in entries ==> e.attributes == old(e.attributes)
    ensures customGroups.Some? ==> |r| == 1 + |customGroups.value| && forall i :: 0 <= i < |r| ==> fresh(r[i])
    ensures customGroups.Some? ==>
              r[0].dn == GroupEntryDN(c, BaseDN) && r[0].attributes == BaseAttributes(c, customGroups.value)
    ensures customGroups.Some? ==>
              forall i :: 0 <= i < |customGroups.value| ==>
                r[1 + i].dn == GroupDN(c, customGroups.value[i]) &&
                r[1 + i].attributes == CustomAttributes(c, customGroups.value[i], old(Shapes(entries)))
    ensures customGroups.Some? ==>
              forall e :: e in entries ==>
                e.attributes == Enroll(c, customGroups.value, |customGroups.value|, old(e.attributes))
  {
    if customGroups.None? {
      return [];
    }
    var gs := customGroups.value;
    ghost var shapes := Shapes(entries);
    ghost var orig := map e | e in entries :: e.attributes;
    assert ShapedAs(entries, orig, shapes);
    var base := MakeGroupEntry(c, BaseDN, "CustomGroups", [], map[]);
    assert gs[..0] == [];
    var groupEntries := MakeCustomGroups(c, gs, 0, base, entries, orig, shapes);
    r := [base] + groupEntries;
    FreshCons(base, groupEntries);
    BuiltAfter(c, gs, shapes, base, groupEntries);
  }

  /** The groups after the base group are the configured ones, in order. */
  lemma BuiltAfter(c: Config, gs: seq<CustomGroup>, shapes: seq<(string, Attributes)>, base: Entry, groupEntries: seq<Entry>)
    requires Built(Wanted(c, gs, shapes), 0, groupEntries)
    ensures |[base] + groupEntries| == 1 + |gs|
    ensures forall i :: 0 <= i < |gs| ==>
              ([base] + groupEntries)[1 + i].dn == GroupDN(c, gs[i]) &&
              ([base] + groupEntries)[1 + i].attributes == CustomAttributes(c, gs[i], shapes)
  {
    var want, r := Wanted(c, gs, shapes), [base] + groupEntries;
    forall i | 0 <= i < |gs| ensures r[1 + i].dn == GroupDN(c, gs[i]) && r[1 + i].attributes == CustomAttributes(c, gs[i], shapes) {
      assert r[1 + i] == groupEntries[i] && (groupEntries[i].dn, groupEntries[i].attributes) == want[0 + i];
    }
  }
}
