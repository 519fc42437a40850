/** Directory entries: a DN string and a mutable bag of attributes. The
    attribute values the directory code builds are single strings, string
    lists (object classes, `member`, `memberOf`) and numbers (`groupid`). */
module Entries {
  import opened Common

  datatype Value = Str(s: string) | Strs(items: seq<string>) | Num(n: int)

  type Attributes = map<string, Value>

  /** The list held under `key`, or the empty list when there is none. */
  function ListOf(a: Attributes, key: string): seq<string>
  {
    if key in a && a[key].Strs? then a[key].items else []
  }

  predicate HasList(a: Attributes, key: string)
  {
    key in a && a[key].Strs?
  }

  /** An entry object. Its DN never changes after construction; its
      attributes are updated in place when group membership is recorded. */
  class Entry {
    const dn: string
    var attributes: Attributes

    constructor (dn: string, attributes: Attributes)
      ensures this.dn == dn && this.attributes == attributes
    {
      this.dn := dn;
      this.attributes := attributes;
    }
  }

  // ---------------------------------------------------------------------------
  // Membership lists

  /** The list after the "push unless already present" step. */
  function AddOnce(list: seq<string>, x: string): (r: seq<string>)
    ensures forall y :: y in r <==> y in list || y == x
    ensures list <= r && |r| <= |list| + 1
    ensures x in list <==> r == list
  {
    if x in list then list else list + [x]
  }

  /** The push never repeats an element. */
  lemma AddOnceDistinct(list: seq<string>, x: string)
    requires Distinct(list)
    ensures Distinct(AddOnce(list, x))
  {
  }

  /** `AddOnce` for every element of `xs`, left to right. */
  function AddAll(list: seq<string>, xs: seq<string>): (r: seq<string>)
    ensures forall y :: y in r <==> y in list || y in xs
    ensures list <= r
    decreases |xs|
  {
    if |xs| == 0 then list else AddAll(AddOnce(list, xs[0]), xs[1..])
  }

  /** Pushing each element unless present never repeats an element. */
  lemma {:induction false} AddAllDistinct(list: seq<string>, xs: seq<string>)
    requires Distinct(list)
    ensures Distinct(AddAll(list, xs))
    decreases |xs|
  {
    if |xs| > 0 {
      AddOnceDistinct(list, xs[0]);
      AddAllDistinct(AddOnce(list, xs[0]), xs[1..]);
    }
  }

  /** Adding elements that are all present already changes nothing. */
  lemma {:induction false} AddAllPresent(list: seq<string>, xs: seq<string>)
    requires forall x :: x in xs ==> x in list
    ensures AddAll(list, xs) == list
    decreases |xs|
  {
    if |xs| > 0 {
      assert xs[0] in xs;
      assert forall x :: x in xs[1..] ==> x in xs;
      AddAllPresent(list, xs[1..]);
    }
  }

  /** Recording the same edges twice is recording them once. */
  lemma AddAllIdempotent(list: seq<string>, xs: seq<string>)
    ensures AddAll(AddAll(list, xs), xs) == AddAll(list, xs)
  {
    AddAllPresent(AddAll(list, xs), xs);
  }

  /** `AddAll` over a longer list is `AddAll` over the shorter one, then the last element. */
  lemma {:induction false} AddAllSnoc(list: seq<string>, xs: seq<string>, x: string)
    ensures AddAll(list, xs + [x]) == AddOnce(AddAll(list, xs), x)
    decreases |xs|
  {
    if |xs| == 0 {
      assert (xs + [x])[1..] == [];
    } else {
      assert (xs + [x])[1..] == xs[1..] + [x];
      AddAllSnoc(AddOnce(list, xs[0]), xs[1..], x);
    }
  }

  // ---------------------------------------------------------------------------
  // How attribute maps change when membership is recorded

  /** `a1` is `a0` with, at most, items appended to its `member` and
      `memberOf` lists; every other attribute is unchanged. */
  predicate Grown(a0: Attributes, a1: Attributes)
  {
    && a1.Keys == a0.Keys
    && forall k :: k in a0 ==>
         if (k == "member" || k == "memberOf") && a0[k].Strs? then a1[k].Strs? && a0[k].items <= a1[k].items
         else a1[k] == a0[k]
  }

  lemma GrownReflexive(a: Attributes)
    ensures Grown(a, a)
  {
  }

  lemma GrownTransitive(a0: Attributes, a1: Attributes, a2: Attributes)
    requires Grown(a0, a1) && Grown(a1, a2)
    ensures Grown(a0, a2)
  {
    forall k | k in a0 && (k == "member" || k == "memberOf") && a0[k].Strs?
      ensures a0[k].items <= a2[k].items
    {
      assert a0[k].items <= a1[k].items <= a2[k].items;
    }
  }

  /** Growing never loses a recorded edge. */
  lemma GrownKeeps(a0: Attributes, a1: Attributes, key: string, x: string)
    requires Grown(a0, a1)
    requires x in ListOf(a0, key)
    ensures x in ListOf(a1, key)
  {
    var k :| 0 <= k < |ListOf(a0, key)| && ListOf(a0, key)[k] == x;
    assert ListOf(a1, key)[k] == x;
  }

  /** Prepending a new entry to a list of new entries. */
  twostate lemma FreshCons(new ge: Entry, new rest: seq<Entry>)
    requires fresh(ge) && forall k :: 0 <= k < |rest| ==> fresh(rest[k])
    ensures forall k :: 0 <= k < 1 + |rest| ==> fresh(([ge] + rest)[k])
  {
    forall k | 0 <= k < 1 + |rest| ensures fresh(([ge] + rest)[k]) {
      if k > 0 {
        assert ([ge] + rest)[k] == rest[k - 1];
      }
    }
  }

  /** Appending a new entry to a list of new entries. */
  twostate lemma FreshSnoc(new es: seq<Entry>, new e: Entry)
    requires fresh(e) && forall k :: 0 <= k < |es| ==> fresh(es[k])
    ensures forall k :: 0 <= k < |es| + 1 ==> fresh((es + [e])[k])
  {
    forall k | 0 <= k < |es| + 1 ensures fresh((es + [e])[k]) {
      if k < |es| {
        assert (es + [e])[k] == es[k];
      }
    }
  }
}
