/** Distinguished names as the directory server compares them. Parsing is
    done by the protocol library in the running system; this model takes a
    DN to be its comma-separated components, most specific first, each
    split at its first '=' into an attribute name (lower-cased, as the
    library keys attributes) and a value, both without surrounding white
    space. */
module Dn {
  import opened Common

  datatype Rdn = Rdn(attr: string, value: string)

  type DN = seq<Rdn>

  function ParseRdn(s: string): Rdn
  {
    var i := IndexOf(s, '=');
    if i < 0 then Rdn(Lower(Trim(s)), "") else Rdn(Lower(Trim(s[..i])), Trim(s[i + 1..]))
  }

  /** The components of a DN string, most specific first; the empty string
      is the empty DN. */
  function ParseDN(s: string): (r: DN)
    ensures s == "" <==> r == []
    ensures s != "" ==> |r| == |Split(s, ',')|
  {
    if s == "" then [] else ParseAll(Split(s, ','))
  }

  function ParseAll(parts: seq<string>): (r: DN)
    ensures |r| == |parts|
    ensures forall i :: 0 <= i < |parts| ==> r[i] == ParseRdn(parts[i])
  {
    seq(|parts|, i requires 0 <= i < |parts| => ParseRdn(parts[i]))
  }

  /** Parsing the pieces of two lists is parsing each list's pieces. */
  lemma ParseAllConcat(x: seq<string>, y: seq<string>)
    ensures ParseAll(x + y) == ParseAll(x) + ParseAll(y)
  {
    var xy := x + y;
    var l := ParseAll(xy);
    assert l == l[..|x|] + l[|x|..];
    assert l[..|x|] == ParseAll(x) by {
      assert xy[..|x|] == x;
      ParseAllTake(xy, |x|);
    }
    assert l[|x|..] == ParseAll(y) by {
      assert xy[|x|..] == y;
      ParseAllDrop(xy, |x|);
    }
  }

  lemma ParseAllTake(parts: seq<string>, n: nat)
    requires n <= |parts|
    ensures ParseAll(parts)[..n] == ParseAll(parts[..n])
  {
  }

  lemma ParseAllDrop(parts: seq<string>, n: nat)
    requires n <= |parts|
    ensures ParseAll(parts)[n..] == ParseAll(parts[n..])
  {
  }

  /** Joining two non-empty DN strings with ',' concatenates their
      component sequences. */
  lemma ParseJoin(a: string, b: string)
    requires a != "" && b != ""
    ensures ParseDN(a + "," + b) == ParseDN(a) + ParseDN(b)
  {
    var s := a + "," + b;
    assert s == a + [','] + b;
    SplitConcat(a, b, ',');
    assert Split(s, ',') == Split(a, ',') + Split(b, ',');
    assert ParseDN(s) == ParseAll(Split(a, ',') + Split(b, ','));
    ParseAllConcat(Split(a, ','), Split(b, ','));
  }

  /** A component without ',' put in front of a DN string is one more
      component in front of its components. */
  lemma ParseBelow(head: string, dn: string)
    requires head != "" && ',' !in head && dn != ""
    ensures ParseDN(head + "," + dn) == [ParseRdn(head)] + ParseDN(dn)
  {
    ParseJoin(head, dn);
    SplitNoSeparator(head, ',');
    assert ParseDN(head) == ParseAll([head]);
  }

  /** The parent of a DN: the DN without its first component; the empty DN
      has none. */
  function Parent(dn: DN): (r: Option<DN>)
    ensures r.Some? <==> |dn| > 0
    ensures r.Some? ==> [dn[0]] + r.value == dn
  {
    if |dn| == 0 then None else Some(dn[1..])
  }

  /** `a.parentOf(b)`: `a` is a proper ancestor of `b`, that is, `a`'s
      components are a proper suffix of `b`'s. */
  predicate ParentOf(a: DN, b: DN)
  {
    |a| < |b| && b[|b| - |a|..] == a
  }

  /** A proper ancestor is the parent or an ancestor of the parent. */
  lemma ParentOfStep(a: DN, b: DN)
    ensures ParentOf(a, b) <==> |b| > 0 && (b[1..] == a || ParentOf(a, b[1..]))
  {
    if |b| > 0 && |a| < |b| {
      assert b[1..][|b[1..]| - |a|..] == b[|b| - |a|..];
    }
  }

  /** Being a proper ancestor is transitive. */
  lemma ParentOfTransitive(a: DN, b: DN, c: DN)
    requires ParentOf(a, b) && ParentOf(b, c)
    ensures ParentOf(a, c)
  {
    assert c[|c| - |a|..] == c[|c| - |b|..][|b| - |a|..];
  }

  /** Every DN built by prefixing components to `a` lies below `a`. */
  lemma ParentOfPrefix(prefix: DN, a: DN)
    requires |prefix| > 0
    ensures ParentOf(a, prefix + a)
  {
    assert (prefix + a)[|prefix + a| - |a|..] == a;
  }
}
