/** The department half of `fetchAllDepartments`, common to
    lib/providers/dingtalk.js and lib/providers/wecom.js: names are cleaned
    up, merged into a table keyed by id, taken out in key order, made
    unique with a numeric suffix, and given a DN by walking `parentid`
    links up to a department without a parent. */
module Departments {
  import opened Common

  /** A department. `parentid` null and 0 are both falsy in the source and
      both are 0 here; `dn` is "" until the DN walk assigns it. */
  datatype Dept = Dept(id: nat, name: string, parent: nat, dn: string)

  // ---------------------------------------------------------------------------
  // Name clean-up

  /** `name.replace(/ \/ /g, ' - ').replace(/\//g, '&').trim()`: every
      " / " becomes " - ", every other '/' becomes '&', and the result is
      trimmed. */
  function NormalizeName(name: string): (r: string)
    ensures '/' !in r
    ensures TrimmedFrom(r, ReplaceAll(ReplaceAll(name, " / ", " - "), "/", "&"))
  {
    ReplaceAllRemoves(ReplaceAll(name, " / ", " - "), '/', "&");
    TrimTrims(ReplaceAll(ReplaceAll(name, " / ", " - "), "/", "&"));
    Trim(ReplaceAll(ReplaceAll(name, " / ", " - "), "/", "&"))
  }

  /** Replacing a pattern holding a character the string lacks changes
      nothing. */
  lemma {:induction false} ReplaceAllAbsent(s: string, pat: string, rep: string, c: char)
    requires |pat| > 0 && c in pat && c !in s
    ensures ReplaceAll(s, pat, rep) == s
    decreases |s|
  {
    if |s| >= |pat| {
      assert s[..|pat|] != pat by {
        assert c !in s[..|pat|];
      }
      ReplaceAllAbsent(s[1..], pat, rep, c);
      assert [s[0]] + s[1..] == s;
    }
  }

  lemma {:induction false} TrimStartKeeps(s: string)
    requires |s| == 0 || !IsSpace(s[0])
    ensures TrimStart(s) == s
  {
  }

  lemma {:induction false} TrimEndKeeps(s: string)
    requires |s| == 0 || !IsSpace(s[|s| - 1])
    ensures TrimEnd(s) == s
  {
  }

  /** A name without '/' is only trimmed. */
  lemma NormalizeNameNoSlash(name: string)
    requires '/' !in name
    ensures TrimmedFrom(NormalizeName(name), name)
  {
    ReplaceAllAbsent(name, " / ", " - ", '/');
    assert " / "[1] == '/';
    ReplaceAllAbsent(name, "/", "&", '/');
  }

  /** A clean name is left alone, so cleaning up is idempotent. */
  lemma NormalizeNameIdempotent(name: string)
    ensures NormalizeName(NormalizeName(name)) == NormalizeName(name)
  {
    var n := NormalizeName(name);
    ReplaceAllAbsent(n, " / ", " - ", '/');
    assert " / "[1] == '/';
    ReplaceAllAbsent(n, "/", "&", '/');
    TrimStartKeeps(n);
    TrimEndKeeps(n);
  }

  // ---------------------------------------------------------------------------
  // The department table

  /** The ids occurring in a list of departments. */
  function Ids(ds: seq<Dept>): (r: set<nat>)
    ensures forall i :: 0 <= i < |ds| ==> ds[i].id in r
    ensures |r| <= |ds|
    decreases |ds|
  {
    if |ds| == 0 then {}
    else
      var front := Ids(ds[..|ds| - 1]);
      assert forall i :: 0 <= i < |ds| - 1 ==> ds[..|ds| - 1][i] == ds[i];
      front + {ds[|ds| - 1].id}
  }

  /** Every id in the set is the id of some department of the list. */
  lemma {:induction false} IdsMembers(ds: seq<Dept>)
    ensures forall id :: id in Ids(ds) ==> exists j :: 0 <= j < |ds| && ds[j].id == id
    decreases |ds|
  {
    if |ds| > 0 {
      var front := ds[..|ds| - 1];
      IdsMembers(front);
      forall id | id in Ids(ds) ensures exists j :: 0 <= j < |ds| && ds[j].id == id {
        if id != ds[|ds| - 1].id {
          assert Ids(ds) == Ids(front) + {ds[|ds| - 1].id};
          var j :| 0 <= j < |front| && front[j].id == id;
          assert ds[j].id == id;
        }
      }
    }
  }

  /** Each department stored under its id, a later one replacing an earlier
      one with the same id, its name cleaned up on the way. */
  function Merge(m: map<nat, Dept>, ds: seq<Dept>): (r: map<nat, Dept>)
    ensures r.Keys == m.Keys + Ids(ds)
    decreases |ds|
  {
    if |ds| == 0 then m
    else
      var last := ds[|ds| - 1];
      Merge(m, ds[..|ds| - 1])[last.id := last.(name := NormalizeName(last.name))]
  }

  /** The department stored under an id is the last one given with that id. */
  lemma {:induction false} MergeLastWins(m: map<nat, Dept>, ds: seq<Dept>, i: nat)
    requires i < |ds|
    requires forall j :: i < j < |ds| ==> ds[j].id != ds[i].id
    ensures Merge(m, ds)[ds[i].id] == ds[i].(name := NormalizeName(ds[i].name))
    decreases |ds|
  {
    if i < |ds| - 1 {
      var front := ds[..|ds| - 1];
      assert front[i] == ds[i];
      MergeLastWins(m, front, i);
    }
  }

  /** An id no given department has keeps what the table held. */
  lemma {:induction false} MergeKeeps(m: map<nat, Dept>, ds: seq<Dept>, id: nat)
    requires id in m
    requires forall i :: 0 <= i < |ds| ==> ds[i].id != id
    ensures Merge(m, ds)[id] == m[id]
    decreases |ds|
  {
    if |ds| > 0 {
      var front := ds[..|ds| - 1];
      assert forall i :: 0 <= i < |front| ==> front[i] == ds[i];
      MergeKeeps(m, front, id);
    }
  }

  /** Every department sits under its own id. */
  predicate KeyedById(m: map<nat, Dept>)
  {
    forall id :: id in m ==> m[id].id == id
  }

  lemma {:induction false} MergeKeyed(m: map<nat, Dept>, ds: seq<Dept>)
    requires KeyedById(m)
    ensures KeyedById(Merge(m, ds))
    decreases |ds|
  {
    if |ds| > 0 {
      MergeKeyed(m, ds[..|ds| - 1]);
    }
  }

  /** The departments keyed by id, a later one replacing an earlier one. */
  function MapOf(ds: seq<Dept>): (m: map<nat, Dept>)
    ensures m.Keys == Ids(ds)
    ensures forall id :: id in m ==> m[id].id == id
    decreases |ds|
  {
    if |ds| == 0 then map[]
    else
      var front := ds[..|ds| - 1];
      var m := MapOf(front)[ds[|ds| - 1].id := ds[|ds| - 1]];
      assert forall i :: 0 <= i < |front| ==> front[i] == ds[i];
      m
  }

  /** The department under an id is one of the list. */
  lemma {:induction false} MapOfMember(ds: seq<Dept>, id: nat)
    requires id in MapOf(ds)
    ensures exists i :: 0 <= i < |ds| && MapOf(ds)[id] == ds[i]
    decreases |ds|
  {
    var front := ds[..|ds| - 1];
    if id != ds[|ds| - 1].id {
      MapOfMember(front, id);
      var i :| 0 <= i < |front| && MapOf(front)[id] == front[i];
      assert ds[i] == front[i];
    }
  }

  /** Ids strictly ascending, as `Object.values` gives them. */
  predicate Ascending(ds: seq<Dept>)
  {
    forall i, j :: 0 <= i < j < |ds| ==> ds[i].id < ds[j].id
  }

  /** With distinct ids every department is found under its own id. */
  lemma MapOfAscending(ds: seq<Dept>)
    requires Ascending(ds)
    ensures forall i :: 0 <= i < |ds| ==> MapOf(ds)[ds[i].id] == ds[i]
    decreases |ds|
  {
    if |ds| > 0 {
      var front := ds[..|ds| - 1];
      MapOfAscending(front);
      forall i | 0 <= i < |ds| ensures MapOf(ds)[ds[i].id] == ds[i] {
        if i < |ds| - 1 {
          assert front[i] == ds[i];
          assert ds[i].id != ds[|ds| - 1].id;
        }
      }
    }
  }

  // ---------------------------------------------------------------------------
  // Object.values: ascending numeric keys

  /** The least element of a non-empty set. */
  ghost function SomeLeast(s: set<nat>): (k: nat)
    requires s != {}
    ensures k in s && forall j :: j in s ==> k <= j
    decreases |s|
  {
    var x :| x in s;
    var rest := s - {x};
    assert forall j :: j in s ==> j == x || j in rest;
    if rest == {} then x
    else
      var k := SomeLeast(rest);
      if x < k then x else k
  }

  function Least(s: set<nat>): (k: nat)
    requires s != {}
    ensures k in s && forall j :: j in s ==> k <= j
  {
    var w := SomeLeast(s);
    var k :| k in s && forall j :: j in s ==> k <= j;
    k
  }

  /** The keys in ascending order. */
  function KeysInOrder(s: set<nat>): (r: seq<nat>)
    ensures |r| == |s|
    ensures forall k :: k in r <==> k in s
    ensures forall i, j :: 0 <= i < j < |r| ==> r[i] < r[j]
    decreases |s|
  {
    if s == {} then []
    else
      var k := Least(s);
      var rest := KeysInOrder(s - {k});
      ConsIncreasing(k, rest);
      [k] + rest
  }

  /** A key below every key of an increasing list extends it at the front. */
  lemma ConsIncreasing(k: nat, rest: seq<nat>)
    requires forall j :: j in rest ==> k < j
    requires forall i, j :: 0 <= i < j < |rest| ==> rest[i] < rest[j]
    ensures forall i, j :: 0 <= i < j < |[k] + rest| ==> ([k] + rest)[i] < ([k] + rest)[j]
  {
    var r := [k] + rest;
    forall i, j | 0 <= i < j < |r| ensures r[i] < r[j] {
      assert r[j] == rest[j - 1] && rest[j - 1] in rest;
      if i == 0 {
        assert r[i] == k;
      } else {
        assert r[i] == rest[i - 1];
      }
    }
  }

  /** `Object.values(depsMap)`: one department per key, in ascending key
      order. */
  function ValuesInKeyOrder(m: map<nat, Dept>): (r: seq<Dept>)
    requires KeyedById(m)
    ensures |r| == |m|
    ensures Ascending(r)
    ensures forall i :: 0 <= i < |r| ==> r[i].id in m && r[i] == m[r[i].id]
  {
    var keys := KeysInOrder(m.Keys);
    assert |m.Keys| == |m|;
    assert forall i :: 0 <= i < |keys| ==> keys[i] in m;
    var r := seq(|keys|, i requires 0 <= i < |keys| && keys[i] in m => m[keys[i]]);
    PickedInOrder(m, keys, r);
    r
  }

  /** Departments picked from a table by ascending keys are in ascending id
      order. */
  lemma PickedInOrder(m: map<nat, Dept>, keys: seq<nat>, r: seq<Dept>)
    requires KeyedById(m)
    requires |r| == |keys| && forall i :: 0 <= i < |keys| ==> keys[i] in m && r[i] == m[keys[i]]
    requires forall i, j :: 0 <= i < j < |keys| ==> keys[i] < keys[j]
    ensures Ascending(r) && forall i :: 0 <= i < |r| ==> r[i].id in m && r[i] == m[r[i].id]
  {
  }

  /** The ids taken out are exactly the keys. */
  lemma ValuesInKeyOrderIds(m: map<nat, Dept>)
    requires KeyedById(m)
    ensures Ids(ValuesInKeyOrder(m)) == m.Keys
  {
    var r := ValuesInKeyOrder(m);
    var keys := KeysInOrder(m.Keys);
    forall id | id in Ids(r) ensures id in m {
      var i := IdIndex(r, id);
    }
    forall id | id in m ensures id in Ids(r) {
      assert id in keys;
      var i :| 0 <= i < |keys| && keys[i] == id;
      assert r[i].id == id;
    }
  }

  /** Every department of the map has its place in `Object.values`. */
  lemma ValuesInKeyOrderAt(m: map<nat, Dept>, id: nat) returns (k: nat)
    requires KeyedById(m) && id in m
    ensures k < |m| && ValuesInKeyOrder(m)[k] == m[id]
  {
    ValuesInKeyOrderIds(m);
    k := IdIndex(ValuesInKeyOrder(m), id);
  }

  /** Taking the values out in key order and keying them again gives the
      same table. */
  lemma ValuesInKeyOrderMapOf(m: map<nat, Dept>)
    requires KeyedById(m)
    ensures MapOf(ValuesInKeyOrder(m)) == m
  {
    var r := ValuesInKeyOrder(m);
    var mo := MapOf(r);
    assert mo.Keys == m.Keys by {
      ValuesInKeyOrderIds(m);
    }
    forall id | id in m ensures mo[id] == m[id] {
      ValuesInKeyOrderMapOfAt(m, id);
    }
    MapsEqual(mo, m);
  }

  lemma ValuesInKeyOrderMapOfAt(m: map<nat, Dept>, id: nat)
    requires KeyedById(m) && id in m
    ensures id in MapOf(ValuesInKeyOrder(m)) && MapOf(ValuesInKeyOrder(m))[id] == m[id]
  {
    var r := ValuesInKeyOrder(m);
    var k := ValuesInKeyOrderAt(m, id);
    MapOfAscending(r);
  }

  /** Where an id of a list occurs in it. */
  function IdIndex(ds: seq<Dept>, id: nat): (i: nat)
    requires id in Ids(ds)
    ensures i < |ds| && ds[i].id == id
    decreases |ds|
  {
    if ds[|ds| - 1].id == id then |ds| - 1
    else
      var front := ds[..|ds| - 1];
      var i := IdIndex(front, id);
      assert front[i] == ds[i];
      i
  }

  // ---------------------------------------------------------------------------
  // Name de-duplication

  /** The k-th name tried for a department called `name`: the name itself,
      then `name2`, `name3`, … */
  function Candidate(name: string, k: nat): (r: string)
    requires k >= 1
    ensures k == 1 ==> r == name
    ensures k >= 2 ==> r == name + Decimal(k) && |r| > |name|
  {
    if k == 1 then name else name + Decimal(k)
  }

  lemma CandidateInjective(name: string, j: nat, k: nat)
    requires j >= 1 && k >= 1 && Candidate(name, j) == Candidate(name, k)
    ensures j == k
  {
    if j >= 2 && k >= 2 {
      var cj, ck := Candidate(name, j), Candidate(name, k);
      assert Decimal(j) == cj[|name|..] == ck[|name|..] == Decimal(k);
      DecimalInjective(j, k);
    }
  }

  /** If the first `n` candidates are all taken, there are at least `n`
      names taken. */
  lemma CandidatesBounded(name: string, n: nat, used: set<string>)
    requires forall j :: 1 <= j <= n ==> Candidate(name, j) in used
    ensures n <= |used|
  {
    var q := seq(n, i requires 0 <= i < n => Candidate(name, i + 1));
    forall a, b | 0 <= a < b < n ensures q[a] != q[b] {
      if q[a] == q[b] {
        CandidateInjective(name, a + 1, b + 1);
      }
    }
    DistinctBounded(q, used);
  }

  function NameSet(ds: seq<Dept>): set<string>
  {
    set d | d in ds :: d.name
  }

  /** Which candidate for `name`, from the `k`-th on, is the first one not
      in `used`. */
  function FirstFree(name: string, used: set<string>, k: nat): (j: nat)
    requires k >= 1 && forall i :: 1 <= i < k ==> Candidate(name, i) in used
    ensures j >= k && Candidate(name, j) !in used
    ensures forall i :: 1 <= i < j ==> Candidate(name, i) in used
    decreases |used| + 1 - k
  {
    if Candidate(name, k) !in used then k
    else
      CandidatesBounded(name, k, used);
      FirstFree(name, used, k + 1)
  }

  /** The de-duplication pass as a function: each department, in order,
      takes the first candidate name not held by a department before it. */
  function Renamed(deps: seq<Dept>): (r: seq<Dept>)
    ensures |r| == |deps|
  {
    if deps == [] then []
    else
      var front := Renamed(deps[..|deps| - 1]);
      var d := deps[|deps| - 1];
      front + [d.(name := Candidate(d.name, FirstFree(d.name, NameSet(front), 1)))]
  }

  /** The inner loop of the de-duplication pass: the first candidate for
      `name` that is not in `used`, and which candidate it is. */
  method FreeName(name: string, used: set<string>) returns (r: string, ghost k: nat)
    ensures k >= 1 && r == Candidate(name, k) && r !in used
    ensures forall j :: 1 <= j < k ==> Candidate(name, j) in used
    ensures k == FirstFree(name, used, 1)
  {
    r := name;
    var idx := 2;
    while r in used
      invariant idx >= 2
      invariant r == Candidate(name, idx - 1)
      invariant forall j :: 1 <= j < idx - 1 ==> Candidate(name, j) in used
      decreases |used| + 2 - idx
    {
      CandidatesBounded(name, idx - 1, used);
      r := name + Decimal(idx);
      idx := idx + 1;
    }
    k := idx - 1;
  }

  /** The de-duplication pass over `allDeps`: each department takes the
      first candidate name not taken by a department before it (so the
      first holder of a name keeps it). */
  method DedupeNames(deps: seq<Dept>) returns (r: seq<Dept>)
    ensures r == Renamed(deps)
  {
    r := [];
    var used: set<string> := {};
    for i := 0 to |deps|
      invariant r == Renamed(deps[..i]) && used == NameSet(r)
    {
      var name;
      ghost var k;
      name, k := FreeName(deps[i].name, used);
      RenamedSnoc(deps, i, r, name);
      r := r + [deps[i].(name := name)];
      used := used + {name};
    }
    TakeAll(deps);
  }

  /** One department more: it takes the first candidate not held by the
      departments renamed before it. */
  lemma RenamedSnoc(deps: seq<Dept>, i: nat, r: seq<Dept>, name: string)
    requires i < |deps| && r == Renamed(deps[..i])
    requires name == Candidate(deps[i].name, FirstFree(deps[i].name, NameSet(r), 1))
    ensures Renamed(deps[..i + 1]) == r + [deps[i].(name := name)]
    ensures NameSet(r + [deps[i].(name := name)]) == NameSet(r) + {name}
  {
    assert deps[..i + 1][..i] == deps[..i];
  }

  /** Renaming a list renames each prefix of it the same way: a department's
      name depends only on the departments before it. */
  lemma {:induction false} RenamedPrefix(deps: seq<Dept>, i: nat)
    requires i <= |deps|
    ensures Renamed(deps)[..i] == Renamed(deps[..i])
  {
    if i < |deps| {
      var front := deps[..|deps| - 1];
      RenamedPrefix(front, i);
      assert front[..i] == deps[..i];
    } else {
      TakeAll(deps);
    }
  }

  /** Each department keeps its id and parent, and takes the first candidate
      for its name that no earlier department holds after renaming; so the
      new name is free, and every earlier candidate was taken. */
  lemma RenamedAt(deps: seq<Dept>, i: nat)
    requires i < |deps|
    ensures Renamed(deps)[i] ==
              deps[i].(name := Candidate(deps[i].name, FirstFree(deps[i].name, NameSet(Renamed(deps)[..i]), 1)))
    ensures Renamed(deps)[i].name !in NameSet(Renamed(deps)[..i])
  {
    var front := Renamed(deps[..i]);
    var name := Candidate(deps[i].name, FirstFree(deps[i].name, NameSet(front), 1));
    RenamedPrefix(deps, i + 1);
    RenamedPrefix(deps, i);
    RenamedSnoc(deps, i, front, name);
    assert Renamed(deps)[i] == Renamed(deps)[..i + 1][i] == deps[i].(name := name);
  }

  /** A department whose name no earlier department holds keeps it. */
  lemma RenamedKeeps(deps: seq<Dept>, i: nat)
    requires i < |deps| && deps[i].name !in NameSet(Renamed(deps)[..i])
    ensures Renamed(deps)[i] == deps[i]
  {
    RenamedAt(deps, i);
  }

  /** After the pass no two departments share a name. */
  lemma RenamedDistinct(deps: seq<Dept>)
    ensures DistinctNames(Renamed(deps))
  {
    var r := Renamed(deps);
    forall i, j | 0 <= i < j < |r| ensures r[i].name != r[j].name {
      RenamedAt(deps, j);
      assert r[i] in r[..j];
    }
  }

  /** Renaming touches names only: ids and parents stay in place. */
  lemma RenamedSameLinks(deps: seq<Dept>)
    ensures SameLinks(deps, Renamed(deps))
  {
    forall i | 0 <= i < |deps| ensures deps[i].id == Renamed(deps)[i].id && deps[i].parent == Renamed(deps)[i].parent {
      RenamedAt(deps, i);
    }
  }

  // ---------------------------------------------------------------------------
  // The DN walk

  /** The `parentid` link of every department in a table. */
  function Parents(m: map<nat, Dept>): (r: map<nat, nat>)
    ensures r.Keys == m.Keys
    ensures forall id :: id in m ==> r[id] == m[id].parent
  {
    map id | id in m :: m[id].parent
  }

  /** Following `parentid` links from `parent` reaches a falsy link or an id
      with no department within `fuel` steps. */
  predicate EndsWithin(links: map<nat, nat>, parent: nat, fuel: nat)
    decreases fuel
  {
    parent == 0 || parent !in links || (fuel > 0 && EndsWithin(links, links[parent], fuel - 1))
  }

  /** No chain of `parentid` links starting at a department goes round in a
      circle (the DN walk would never end). */
  predicate WalksEnd(ds: seq<Dept>)
  {
    var links := Parents(MapOf(ds));
    forall i :: 0 <= i < |ds| ==> EndsWithin(links, ds[i].parent, |links|)
  }

  lemma {:induction false} EndsWithinMore(links: map<nat, nat>, parent: nat, f1: nat, f2: nat)
    requires EndsWithin(links, parent, f1) && f1 <= f2
    ensures EndsWithin(links, parent, f2)
    decreases f1
  {
    if parent != 0 && parent in links {
      EndsWithinMore(links, links[parent], f1 - 1, f2 - 1);
    }
  }

  /** The `ou=` components the walk appends above a department whose
      `parentid` is `parent`; None where it reaches an id with no
      department, at which point the source throws. */
  function Above(m: map<nat, Dept>, parent: nat, fuel: nat): Option<seq<string>>
    decreases fuel
  {
    if parent == 0 then Some([])
    else if parent !in m then None
    else if fuel == 0 then Some([])
    else
      match Above(m, m[parent].parent, fuel - 1)
      case None => None
      case Some(rest) => Some(["ou=" + m[parent].name] + rest)
  }

  /** Enough fuel is enough: more changes nothing. */
  lemma {:induction false} AboveFuel(m: map<nat, Dept>, parent: nat, f1: nat, f2: nat)
    requires EndsWithin(Parents(m), parent, f1) && f1 <= f2
    ensures Above(m, parent, f1) == Above(m, parent, f2)
    decreases f1
  {
    if parent != 0 && parent in m {
      AboveFuel(m, m[parent].parent, f1 - 1, f2 - 1);
    }
  }

  /** The DN the walk gives `d` in the table `m`. */
  function DnOf(m: map<nat, Dept>, d: Dept, fuel: nat): Option<string>
  {
    match Above(m, d.parent, fuel)
    case None => None
    case Some(rest) => Some(Join(["ou=" + d.name] + rest, ","))
  }

  function Prepend(xs: seq<string>, o: Option<seq<string>>): Option<seq<string>>
  {
    match o
    case None => None
    case Some(ys) => Some(xs + ys)
  }

  lemma PrependPrepend(xs: seq<string>, ys: seq<string>, o: Option<seq<string>>)
    ensures Prepend(xs, Prepend(ys, o)) == Prepend(xs + ys, o)
  {
    if o.Some? {
      assert xs + (ys + o.value) == (xs + ys) + o.value;
    }
  }

  /** The DN walk as a function: every department with `dn` set to the
      result of its walk, or None when some walk meets a missing
      department. */
  function Placed(deps: seq<Dept>): Option<seq<Dept>>
  {
    WithDNs(deps, Walks(deps))
  }

  /** The result of every department's walk, in list order. */
  function Walks(deps: seq<Dept>): (w: seq<Option<string>>)
    ensures |w| == |deps|
  {
    seq(|deps|, i requires 0 <= i < |deps| => DnOf(MapOf(deps), deps[i], |deps|))
  }

  /** The list the DN walk gives: None exactly when some department's walk
      meets a missing department, and otherwise every department, in
      order, with the DN of its walk. */
  lemma PlacedMeaning(deps: seq<Dept>)
    ensures Placed(deps).None? <==> exists i :: 0 <= i < |deps| && DnOf(MapOf(deps), deps[i], |deps|).None?
    ensures Placed(deps).Some? ==>
              |Placed(deps).value| == |deps| &&
              forall i :: 0 <= i < |deps| ==> Placed(deps).value[i] == deps[i].(dn := DnOf(MapOf(deps), deps[i], |deps|).value)
  {
    var w := Walks(deps);
    assert forall i :: 0 <= i < |deps| ==> w[i] == DnOf(MapOf(deps), deps[i], |deps|);
  }

  /** The departments with their DNs, or None when one of them has none. */
  function WithDNs(ds: seq<Dept>, dns: seq<Option<string>>): Option<seq<Dept>>
    requires |dns| == |ds|
  {
    if exists i :: 0 <= i < |ds| && dns[i].None? then None
    else Some(seq(|ds|, i requires 0 <= i < |ds| => ds[i].(dn := dns[i].value)))
  }

  /** The DN walk: every department's `dn` becomes `ou=<name>` followed by
      the `ou=` components of its ancestors; None where some walk reaches a
      missing department. */
  method AssignDNs(deps: seq<Dept>) returns (r: Option<seq<Dept>>)
    requires WalksEnd(deps)
    ensures r.None? <==> exists i :: 0 <= i < |deps| && DnOf(MapOf(deps), deps[i], |deps|).None?
    ensures r.Some? ==> |r.value| == |deps|
    ensures r.Some? ==> forall i :: 0 <= i < |deps| ==> r.value[i] == deps[i].(dn := DnOf(MapOf(deps), deps[i], |deps|).value)
    ensures r == Placed(deps)
  {
    var m := MapOf(deps);
    var out: seq<Dept> := [];
    for i := 0 to |deps|
      invariant |out| == i
      invariant forall n :: 0 <= n < i ==> DnOf(m, deps[n], |deps|).Some? && out[n] == deps[n].(dn := DnOf(m, deps[n], |deps|).value)
    {
      var dn := WalkUp(m, deps[i], |deps|);
      if dn.None? {
        WithDNsNone(deps, Walks(deps), i);
        return None;
      }
      ghost var prev := out;
      out := out + [deps[i].(dn := dn.value)];
      assert forall n :: 0 <= n < i ==> out[n] == prev[n];
    }
    WithDNsSome(deps, Walks(deps), out);
    r := Some(out);
  }

  /** A department without a DN sinks the whole list. */
  lemma WithDNsNone(ds: seq<Dept>, dns: seq<Option<string>>, i: nat)
    requires |dns| == |ds| && i < |ds| && dns[i].None?
    ensures WithDNs(ds, dns).None?
  {
  }

  /** When every department has a DN, the list is each of them with it. */
  lemma WithDNsSome(ds: seq<Dept>, dns: seq<Option<string>>, out: seq<Dept>)
    requires |dns| == |ds| && |out| == |ds|
    requires forall n :: 0 <= n < |ds| ==> dns[n].Some? && out[n] == ds[n].(dn := dns[n].value)
    ensures WithDNs(ds, dns) == Some(out)
  {
    var placed := seq(|ds|, i requires 0 <= i < |ds| => ds[i].(dn := dns[i].value));
    assert placed == out;
  }

  /** The walk for one department: `ou=<name>` for it and for each ancestor
      reached through `parentid` links, joined with commas; None when a link
      names an id with no department. */
  method WalkUp(m: map<nat, Dept>, d: Dept, ghost bound: nat) returns (r: Option<string>)
    requires EndsWithin(Parents(m), d.parent, |m|) && |m| <= bound
    ensures r == DnOf(m, d, bound)
  {
    ghost var links := Parents(m);
    var obj := d;
    var dn := ["ou=" + obj.name];
    ghost var fuel: nat := |links|;
    AboveFuel(m, obj.parent, |links|, bound);
    assert Above(m, obj.parent, fuel) == Prepend(dn[1..], Above(m, obj.parent, fuel)) by {
      assert dn[1..] == [];
      match Above(m, obj.parent, fuel)
      case None =>
      case Some(ys) => assert [] + ys == ys;
    }
    while obj.parent != 0
      invariant EndsWithin(links, obj.parent, fuel)
      invariant |dn| >= 1 && dn[0] == "ou=" + d.name
      invariant Above(m, d.parent, bound) == Prepend(dn[1..], Above(m, obj.parent, fuel))
      decreases fuel
    {
      if obj.parent !in m {
        return None;
      }
      var next := m[obj.parent];
      assert links[obj.parent] == next.parent;
      assert Above(m, obj.parent, fuel) == Prepend(["ou=" + next.name], Above(m, next.parent, fuel - 1));
      PrependPrepend(dn[1..], ["ou=" + next.name], Above(m, next.parent, fuel - 1));
      assert dn[1..] + ["ou=" + next.name] == (dn + ["ou=" + next.name])[1..];
      obj := next;
      dn := dn + ["ou=" + obj.name];
      fuel := fuel - 1;
    }
    assert Above(m, d.parent, bound) == Some(dn[1..]) by {
      assert dn[1..] + [] == dn[1..];
    }
    assert dn == ["ou=" + d.name] + dn[1..];
    r := Some(Join(dn, ","));
  }

  /** A department's DN is `ou=<name>` followed by its parent's DN; one
      without a parent has just its own component. */
  lemma ChildDN(ds: seq<Dept>, i: nat)
    requires WalksEnd(ds) && i < |ds|
    ensures ds[i].parent == 0 ==> DnOf(MapOf(ds), ds[i], |ds|) == Some("ou=" + ds[i].name)
    ensures ds[i].parent != 0 && ds[i].parent in MapOf(ds) ==>
              DnOf(MapOf(ds), ds[i], |ds|) ==
                match DnOf(MapOf(ds), MapOf(ds)[ds[i].parent], |ds|)
                case None => None
                case Some(p) => Some("ou=" + ds[i].name + "," + p)
  {
    var m := MapOf(ds);
    assert |Parents(m)| == |m.Keys| == |Ids(ds)| <= |ds|;
    ChildDnIn(m, ds[i], |ds|);
  }

  lemma ChildDnIn(m: map<nat, Dept>, d: Dept, fuel: nat)
    requires EndsWithin(Parents(m), d.parent, |Parents(m)|) && |Parents(m)| <= fuel
    ensures d.parent == 0 ==> DnOf(m, d, fuel) == Some("ou=" + d.name)
    ensures d.parent != 0 && d.parent in m ==>
              DnOf(m, d, fuel) ==
                match DnOf(m, m[d.parent], fuel)
                case None => None
                case Some(p) => Some("ou=" + d.name + "," + p)
  {
    var links := Parents(m);
    if d.parent != 0 && d.parent in m {
      var p := m[d.parent];
      assert links[d.parent] == p.parent;
      AboveFuel(m, p.parent, |links| - 1, fuel - 1);
      AboveFuel(m, p.parent, |links| - 1, fuel);
      DnOfStep(m, d, fuel - 1);
    } else if d.parent == 0 {
      assert ["ou=" + d.name] + [] == ["ou=" + d.name];
    }
  }

  /** One step of the walk: a child's DN is its own component, then the
      parent's DN. */
  lemma DnOfStep(m: map<nat, Dept>, d: Dept, f: nat)
    requires d.parent != 0 && d.parent in m
    ensures DnOf(m, d, f + 1) ==
              match DnOf(m, m[d.parent], f)
              case None => None
              case Some(p) => Some("ou=" + d.name + "," + p)
  {
    var p := m[d.parent];
    match Above(m, p.parent, f)
    case None =>
    case Some(rest) =>
      JoinAppend(["ou=" + d.name], ["ou=" + p.name] + rest, ",");
      assert ["ou=" + d.name] + (["ou=" + p.name] + rest) == ["ou=" + d.name] + ["ou=" + p.name] + rest;
  }

  // ---------------------------------------------------------------------------
  // The table once cleaned up

  /** Every truthy `parentid` names a department. */
  predicate ParentsClosed(m: map<nat, Dept>)
  {
    forall id :: id in m && m[id].parent != 0 ==> m[id].parent in m
  }

  /** Every department's chain of `parentid` links ends (no cycle), within as
      many steps as there are departments. */
  predicate Closes(m: map<nat, Dept>)
  {
    forall id :: id in m ==> EndsWithin(Parents(m), m[id].parent, |m|)
  }

  /** Two lists with the same ids and `parentid` links in the same order:
      renaming and the DN walk change neither. */
  predicate SameLinks(a: seq<Dept>, b: seq<Dept>)
  {
    |a| == |b| && forall i :: 0 <= i < |a| ==> a[i].id == b[i].id && a[i].parent == b[i].parent
  }

  lemma {:induction false} SameLinksAt(a: seq<Dept>, b: seq<Dept>, id: nat)
    requires SameLinks(a, b)
    ensures id in MapOf(a) <==> id in MapOf(b)
    ensures id in MapOf(a) ==> MapOf(a)[id].parent == MapOf(b)[id].parent
    decreases |a|
  {
    if |a| > 0 {
      var n := |a| - 1;
      assert SameLinks(a[..n], b[..n]);
      SameLinksAt(a[..n], b[..n], id);
    }
  }

  /** Lists with the same links give tables with the same links. */
  lemma SameLinksTable(a: seq<Dept>, b: seq<Dept>)
    requires SameLinks(a, b)
    ensures MapOf(a).Keys == MapOf(b).Keys && Parents(MapOf(a)) == Parents(MapOf(b))
  {
    forall id ensures id in MapOf(a) <==> id in MapOf(b) {
      SameLinksAt(a, b, id);
    }
    forall id | id in MapOf(a) ensures Parents(MapOf(a))[id] == Parents(MapOf(b))[id] {
      SameLinksAt(a, b, id);
    }
  }

  /** Whether the walks end, and every property of the table's links, is
      the same for lists with the same links. */
  lemma SameLinksKeep(a: seq<Dept>, b: seq<Dept>)
    requires SameLinks(a, b)
    ensures WalksEnd(a) <==> WalksEnd(b)
    ensures Ascending(a) <==> Ascending(b)
    ensures Closes(MapOf(a)) <==> Closes(MapOf(b))
    ensures ParentsClosed(MapOf(a)) <==> ParentsClosed(MapOf(b))
  {
    var ma, mb := MapOf(a), MapOf(b);
    SameLinksTable(a, b);
    assert |ma| == |ma.Keys| == |mb.Keys| == |mb|;
    assert forall id :: id in ma ==> ma[id].parent == Parents(ma)[id] == Parents(mb)[id] == mb[id].parent;
  }

  /** Where every walk from the list ends, every walk from the table ends. */
  lemma WalksEndCloses(ds: seq<Dept>)
    requires WalksEnd(ds)
    ensures Closes(MapOf(ds))
  {
    var m := MapOf(ds);
    assert |Parents(m)| == |Parents(m).Keys| == |m.Keys| == |m|;
    forall id | id in m ensures EndsWithin(Parents(m), m[id].parent, |m|) {
      MapOfMember(ds, id);
    }
  }

  /** When the DN walk gives every department a DN, no `parentid` is
      dangling. */
  lemma PlacedParentsClosed(ds: seq<Dept>)
    requires forall i :: 0 <= i < |ds| ==> DnOf(MapOf(ds), ds[i], |ds|).Some?
    ensures ParentsClosed(MapOf(ds))
  {
    var m := MapOf(ds);
    forall id | id in m && m[id].parent != 0 ensures m[id].parent in m {
      MapOfMember(ds, id);
      var i :| 0 <= i < |ds| && m[id] == ds[i];
      assert DnOf(m, ds[i], |ds|).Some?;
    }
  }

  /** No two departments share a name. */
  predicate DistinctNames(ds: seq<Dept>)
  {
    forall i, j :: 0 <= i < j < |ds| ==> ds[i].name != ds[j].name
  }

  /** What a successful DN walk leaves: the same links, a table whose walks
      end and whose every `parentid` names a department, and the names as
      they were. */
  lemma PlacedTable(ds: seq<Dept>, placed: seq<Dept>)
    requires WalksEnd(ds) && |placed| == |ds|
    requires forall i :: 0 <= i < |ds| ==> DnOf(MapOf(ds), ds[i], |ds|).Some?
    requires forall i :: 0 <= i < |ds| ==> placed[i] == ds[i].(dn := DnOf(MapOf(ds), ds[i], |ds|).value)
    ensures SameLinks(ds, placed) && Closes(MapOf(placed)) && ParentsClosed(MapOf(placed))
    ensures Ascending(ds) ==> Ascending(placed)
    ensures DistinctNames(ds) ==> DistinctNames(placed)
  {
    assert SameLinks(ds, placed);
    SameLinksKeep(ds, placed);
    WalksEndCloses(ds);
    PlacedParentsClosed(ds);
  }

  /** The rest of `fetchAllDepartments` once the table is taken out in key
      order: names made unique, then every DN assigned. `named` is the list
      after renaming; None where the DN walk meets a dangling `parentid`
      (the source throws there). */
  method NameAndPlace(values: seq<Dept>) returns (r: Option<seq<Dept>>, named: seq<Dept>)
    requires WalksEnd(values)
    ensures named == Renamed(values) && r == Placed(named)
    ensures SameLinks(values, named) && DistinctNames(named)
    ensures r.None? <==> exists i :: 0 <= i < |named| && DnOf(MapOf(named), named[i], |named|).None?
    ensures r.Some? ==> |r.value| == |named|
    ensures r.Some? ==> forall i :: 0 <= i < |named| ==> r.value[i] == named[i].(dn := DnOf(MapOf(named), named[i], |named|).value)
    ensures r.Some? ==> SameLinks(values, r.value) && DistinctNames(r.value)
    ensures r.Some? ==> Closes(MapOf(r.value)) && ParentsClosed(MapOf(r.value))
  {
    named := DedupeNames(values);
    RenamedDistinct(values);
    RenamedSameLinks(values);
    SameLinksKeep(values, named);
    r := AssignDNs(named);
    if r.Some? {
      PlacedTable(named, r.value);
    }
  }
}
