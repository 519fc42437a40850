/** The user half shared by lib/providers/dingtalk.js and
    lib/providers/wecom.js: the user record after fetching, the display-name
    split, the two user filters and the person's mail and DN. A field the
    directory service leaves out is the empty string here, which is falsy in
    the source just as the missing field is. */
module People {
  import opened Common
  import opened Departments
  import Dn

  /** A fetched user. `firstDepartment` is the department whose member list
      the user was fetched from. */
  datatype User = User(
    userid: string,
    name: string,
    position: string,
    mobile: string,
    avatar: string,
    remark: string,
    orgEmail: string,
    email: string,
    active: bool,
    department: seq<nat>,
    firstDepartment: Dept)

  // ---------------------------------------------------------------------------
  // parseName

  /** `parseName(name)`: with a space after the first character the surname
      is the last space-separated word and the given name the words before
      it; otherwise the surname is the first character and the given name
      the rest. */
  function ParseName(name: string): (r: (string, string))
  {
    if IndexOf(name, ' ') > 0 then
      var parts := Split(name, ' ');
      (Join(parts[..|parts| - 1], " "), parts[|parts| - 1])
    else
      (Drop(name, 1), Take(name, 1))
  }

  /** What the split means: the two halves put back together give the
      name, the surname holding no space in the first case and at most one
      character in the second. */
  lemma ParseNameMeaning(name: string)
    ensures IndexOf(name, ' ') > 0 ==>
              var (givenName, sn) := ParseName(name);
              givenName + " " + sn == name && ' ' !in sn
    ensures IndexOf(name, ' ') <= 0 ==>
              var (givenName, sn) := ParseName(name);
              sn + givenName == name && |sn| <= 1
  {
    if IndexOf(name, ' ') > 0 {
      var parts := Split(name, ' ');
      JoinSplit(name, ' ');
      SplitPiecesFree(name, ' ');
      var front := parts[..|parts| - 1];
      assert front + [parts[|parts| - 1]] == parts;
      JoinSnoc(front, parts[|parts| - 1], " ");
    } else if |name| > 0 {
      assert name[..1] + name[1..] == name;
    }
  }

  // ---------------------------------------------------------------------------
  // The user filters

  /** `u.orgEmail || u.email` is truthy. */
  predicate HasEmail(u: User)
  {
    u.orgEmail != "" || u.email != ""
  }

  /** No user before position `i` has the same `userid`. */
  predicate FirstOccurrence(us: seq<User>, i: nat)
    requires i < |us|
  {
    forall j :: 0 <= j < i ==> us[j].userid != us[i].userid
  }

  /** The verdict of the first filter on the user at position `i`: the first
      user with a given `userid` passes iff active; a later one passes iff
      `keepLater` (false for dingtalk.js, true for wecom.js). */
  predicate Passes(us: seq<User>, i: nat, keepLater: bool)
    requires i < |us|
  {
    if FirstOccurrence(us, i) then us[i].active else keepLater
  }

  /** The users the first filter keeps, in order. */
  function ActiveFirst(us: seq<User>, keepLater: bool): (r: seq<User>)
    ensures |r| <= |us|
    decreases |us|
  {
    if |us| == 0 then []
    else
      var n := |us| - 1;
      ActiveFirst(us[..n], keepLater) + (if Passes(us, n, keepLater) then [us[n]] else [])
  }

  /** The first filter of the user selection: `allUsersMap` remembers every
      `userid` seen so far. */
  method FilterActive(users: seq<User>, keepLater: bool) returns (r: seq<User>)
    ensures r == ActiveFirst(users, keepLater)
  {
    var seen: set<string> := {};
    r := [];
    for i := 0 to |users|
      invariant seen == set j | 0 <= j < i :: users[j].userid
      invariant r == ActiveFirst(users[..i], keepLater)
    {
      var u := users[i];
      var pass: bool;
      if u.userid !in seen {
        seen := seen + {u.userid};
        pass := u.active;
      } else {
        pass := keepLater;
      }
      assert users[..i + 1][..i] == users[..i];
      assert pass == Passes(users[..i + 1], i, keepLater);
      if pass {
        r := r + [u];
      }
    }
    assert users[..|users|] == users;
  }

  /** The second filter: users with neither address are dropped. */
  function WithEmail(us: seq<User>): (r: seq<User>)
    ensures forall u :: u in r <==> u in us && HasEmail(u)
    decreases |us|
  {
    if |us| == 0 then []
    else WithEmail(us[..|us| - 1]) + (if HasEmail(us[|us| - 1]) then [us[|us| - 1]] else [])
  }

  /** The passing verdict looks only at the users up to the one judged. */
  lemma PassesPrefix(us: seq<User>, n: nat, i: nat, keepLater: bool)
    requires i < n <= |us|
    ensures Passes(us[..n], i, keepLater) == Passes(us, i, keepLater)
  {
    assert forall j :: 0 <= j <= i ==> us[..n][j] == us[j];
  }

  /** The users the first filter keeps are exactly those whose verdict is to
      pass. */
  lemma {:induction false} ActiveFirstMembers(us: seq<User>, keepLater: bool, u: User)
    ensures u in ActiveFirst(us, keepLater) <==> exists i :: 0 <= i < |us| && us[i] == u && Passes(us, i, keepLater)
    decreases |us|
  {
    if |us| > 0 {
      var n := |us| - 1;
      var front := us[..n];
      ActiveFirstMembers(front, keepLater, u);
      if u in ActiveFirst(front, keepLater) {
        var i :| 0 <= i < |front| && front[i] == u && Passes(front, i, keepLater);
        PassesPrefix(us, n, i, keepLater);
      }
      if exists i :: 0 <= i < |us| && us[i] == u && Passes(us, i, keepLater) {
        var i :| 0 <= i < |us| && us[i] == u && Passes(us, i, keepLater);
        if i < n {
          PassesPrefix(us, n, i, keepLater);
          assert front[i] == u;
        }
      }
    }
  }

  /** Every user the first filter keeps comes from the input. */
  lemma ActiveFirstFrom(us: seq<User>, keepLater: bool)
    ensures forall u :: u in ActiveFirst(us, keepLater) ==> u in us
  {
    forall u | u in ActiveFirst(us, keepLater) ensures u in us {
      ActiveFirstMembers(us, keepLater, u);
    }
  }

  /** No two users share a `userid`. */
  predicate UniqueIds(us: seq<User>)
  {
    forall i, j :: 0 <= i < j < |us| ==> us[i].userid != us[j].userid
  }

  /** With later duplicates dropped (dingtalk.js), no two selected users
      share a `userid`. */
  lemma {:induction false} DropLaterUnique(us: seq<User>)
    ensures UniqueIds(ActiveFirst(us, false))
    decreases |us|
  {
    if |us| > 0 {
      var n := |us| - 1;
      var front := us[..n];
      DropLaterUnique(front);
      var r0 := ActiveFirst(front, false);
      if Passes(us, n, false) {
        forall i | 0 <= i < |r0| ensures r0[i].userid != us[n].userid {
          ActiveFirstMembers(front, false, r0[i]);
          var k :| 0 <= k < |front| && front[k] == r0[i] && Passes(front, k, false);
          assert us[k] == r0[i];
        }
      }
    }
  }

  /** Two users with the same `userid` under dingtalk.js: only the first can
      be kept, and only if it is active. */
  lemma DuplicateDropped(a: User, b: User)
    requires a.userid == b.userid
    ensures ActiveFirst([a, b], false) == (if a.active then [a] else [])
  {
    assert [a, b][..1] == [a];
    assert [a][..0] == [];
  }

  /** The same two users under wecom.js: the later one is kept whatever its
      status. */
  lemma DuplicateKept(a: User, b: User)
    requires a.userid == b.userid
    ensures ActiveFirst([a, b], true) == (if a.active then [a, b] else [b])
  {
    assert [a, b][..1] == [a];
    assert [a][..0] == [];
  }

  // ---------------------------------------------------------------------------
  // The person's mail and DN

  /** `(u.orgEmail || u.email).toLowerCase()`. */
  function Mail(u: User): (r: string)
    ensures u.orgEmail != "" ==> r == Lower(u.orgEmail)
    ensures u.orgEmail == "" ==> r == Lower(u.email)
  {
    Lower(if u.orgEmail != "" then u.orgEmail else u.email)
  }

  /** `mail=<mail>,<firstDepartment.dn>`. */
  function PersonDN(u: User): string
  {
    "mail=" + Mail(u) + "," + u.firstDepartment.dn
  }

  /** A person sits directly below its first department: when the address
      holds no ',', the DN's first component is the `mail=` one and the
      rest are the department's components. */
  lemma PersonDNBelow(u: User)
    requires u.firstDepartment.dn != "" && ',' !in Mail(u)
    ensures Dn.ParseDN(PersonDN(u)) == [Dn.ParseRdn("mail=" + Mail(u))] + Dn.ParseDN(u.firstDepartment.dn)
    ensures Dn.Parent(Dn.ParseDN(PersonDN(u))) == Some(Dn.ParseDN(u.firstDepartment.dn))
  {
    var head := "mail=" + Mail(u);
    assert ',' !in head by {
      assert forall k :: 5 <= k < |head| ==> head[k] == Mail(u)[k - 5];
    }
    Dn.ParseBelow(head, u.firstDepartment.dn);
  }

  /** The address in the DN is lower case. */
  lemma MailLower(u: User)
    ensures Lower(Mail(u)) == Mail(u)
  {
    LowerIdempotent(if u.orgEmail != "" then u.orgEmail else u.email);
  }

  /** Dropping users keeps the `userid`s unique. */
  lemma {:induction false} WithEmailUnique(us: seq<User>)
    requires UniqueIds(us)
    ensures UniqueIds(WithEmail(us))
    decreases |us|
  {
    if |us| > 0 {
      var n := |us| - 1;
      var front := us[..n];
      assert UniqueIds(front);
      WithEmailUnique(front);
      var r0 := WithEmail(front);
      forall i | 0 <= i < |r0| ensures r0[i].userid != us[n].userid {
        assert r0[i] in front;
        var k :| 0 <= k < n && front[k] == r0[i];
      }
    }
  }
}
