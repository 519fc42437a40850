/** Helpers shared by every module: an option type and the handful of
    JavaScript string operations the directory code is built from
    (`Array.prototype.join`, `String.prototype.split` on one character,
    `toLowerCase`, `trim`, global `replace`, number-to-string). */
module Common {

  datatype Option<+T> = None | Some(value: T)

  // ---------------------------------------------------------------------------
  // Array.prototype.join

  /** `parts.join(sep)`: the parts with `sep` between neighbours. */
  function Join(parts: seq<string>, sep: string): string
    decreases |parts|
  {
    if |parts| == 0 then ""
    else if |parts| == 1 then parts[0]
    else parts[0] + sep + Join(parts[1..], sep)
  }

  /** Joining two non-empty lists puts one separator between the halves. */
  lemma {:induction false} JoinAppend(a: seq<string>, b: seq<string>, sep: string)
    requires |a| >= 1 && |b| >= 1
    ensures Join(a + b, sep) == Join(a, sep) + sep + Join(b, sep)
    decreases |a|
  {
    if |a| == 1 {
      assert (a + b)[1..] == b;
    } else {
      assert (a + b)[1..] == a[1..] + b;
      JoinAppend(a[1..], b, sep);
    }
  }

  /** Joining after appending one element. */
  lemma JoinSnoc(a: seq<string>, x: string, sep: string)
    requires |a| >= 1
    ensures Join(a + [x], sep) == Join(a, sep) + sep + x
  {
    JoinAppend(a, [x], sep);
  }

  // ---------------------------------------------------------------------------
  // String.prototype.split with a one-character separator

  /** `s.split(c)`: the maximal pieces of `s` between occurrences of `c`;
      the empty string splits into one empty piece. */
  function Split(s: string, c: char): (r: seq<string>)
    ensures |r| >= 1
    decreases |s|
  {
    if |s| == 0 then [""]
    else
      var rest := Split(s[1..], c);
      if s[0] == c then [""] + rest else [[s[0]] + rest[0]] + rest[1..]
  }

  /** No piece of a split contains the separator. */
  lemma {:induction false} SplitPiecesFree(s: string, c: char)
    ensures forall i :: 0 <= i < |Split(s, c)| ==> c !in Split(s, c)[i]
    decreases |s|
  {
    if |s| > 0 {
      SplitPiecesFree(s[1..], c);
    }
  }

  /** A string without the separator splits into itself. */
  lemma {:induction false} SplitNoSeparator(s: string, c: char)
    requires c !in s
    ensures Split(s, c) == [s]
    decreases |s|
  {
    if |s| > 0 {
      assert c !in s[1..] && s[0] != c;
      SplitNoSeparator(s[1..], c);
      assert [s[0]] + s[1..] == s;
    }
  }

  /** Splitting is undone by joining with the same separator. */
  lemma {:induction false} JoinSplit(s: string, c: char)
    ensures Join(Split(s, c), [c]) == s
    decreases |s|
  {
    if |s| > 0 {
      var rest := Split(s[1..], c);
      JoinSplit(s[1..], c);
      if s[0] == c {
        assert ([""] + rest)[1..] == rest;
      } else {
        var r := [[s[0]] + rest[0]] + rest[1..];
        if |rest| == 1 {
          assert r == [[s[0]] + rest[0]];
        } else {
          assert r[1..] == rest[1..];
        }
      }
    }
  }

  /** Splitting `a + c + b` splits the two halves independently. */
  lemma {:induction false} SplitConcat(a: string, b: string, c: char)
    ensures Split(a + [c] + b, c) == Split(a, c) + Split(b, c)
    decreases |a|
  {
    var s := a + [c] + b;
    if |a| == 0 {
      assert s[1..] == b;
    } else {
      assert s[1..] == a[1..] + [c] + b;
      SplitConcat(a[1..], b, c);
    }
  }

  /** Joining pieces that do not contain the separator and splitting again
      gives the pieces back. */
  lemma {:induction false} SplitJoin(parts: seq<string>, c: char)
    requires |parts| >= 1
    requires forall i :: 0 <= i < |parts| ==> c !in parts[i]
    ensures Split(Join(parts, [c]), c) == parts
    decreases |parts|
  {
    if |parts| == 1 {
      SplitNoSeparator(parts[0], c);
    } else {
      SplitJoin(parts[1..], c);
      SplitNoSeparator(parts[0], c);
      SplitConcat(parts[0], Join(parts[1..], [c]), c);
      assert Join(parts, [c]) == parts[0] + [c] + Join(parts[1..], [c]);
      assert parts == [parts[0]] + parts[1..];
    }
  }

  // ---------------------------------------------------------------------------
  // String.prototype.indexOf on one character

  /** Index of the first `c` in `s`, or -1. */
  function IndexOf(s: string, c: char): (r: int)
    ensures -1 <= r < |s|
    ensures r == -1 <==> c !in s
    ensures r >= 0 ==> s[r] == c && c !in s[..r]
    decreases |s|
  {
    if |s| == 0 then -1
    else if s[0] == c then 0
    else
      var k := IndexOf(s[1..], c);
      if k < 0 then -1
      else
        assert s[..k + 1] == [s[0]] + s[1..][..k];
        k + 1
  }

  // ---------------------------------------------------------------------------
  // substr on a non-negative start

  /** `s.substr(0, n)`: the first `n` characters, or all of a shorter `s`. */
  function Take(s: string, n: nat): string
  {
    if n <= |s| then s[..n] else s
  }

  /** `s.substr(n)`: everything after the first `n` characters. */
  function Drop(s: string, n: nat): string
  {
    if n <= |s| then s[n..] else ""
  }

  // ---------------------------------------------------------------------------
  // toLowerCase, for the ASCII letters only

  function LowerChar(ch: char): char
  {
    if 'A' <= ch <= 'Z' then (ch as int + 32) as char else ch
  }

  /** `s.toLowerCase()` for strings whose only letters to change are ASCII. */
  function Lower(s: string): (r: string)
    ensures |r| == |s|
    ensures forall i :: 0 <= i < |s| ==> r[i] == LowerChar(s[i])
  {
    seq(|s|, i requires 0 <= i < |s| => LowerChar(s[i]))
  }

  /** Lower-casing twice is lower-casing once. */
  lemma LowerIdempotent(s: string)
    ensures Lower(Lower(s)) == Lower(s)
  {
  }

  /** Lower-casing distributes over concatenation. */
  lemma LowerConcat(a: string, b: string)
    ensures Lower(a + b) == Lower(a) + Lower(b)
  {
  }

  // ---------------------------------------------------------------------------
  // trim

  /** The characters `String.prototype.trim` removes: the ECMAScript
      WhiteSpace and LineTerminator code points. */
  predicate IsSpace(ch: char)
  {
    ch == ' ' || ch == '\t' || ch == '\n' || ch == '\r' || ch == '\U{000B}' || ch == '\U{000C}'
    || ch == '\U{00A0}' || ch == '\U{1680}' || ('\U{2000}' <= ch <= '\U{200A}')
    || ch == '\U{2028}' || ch == '\U{2029}' || ch == '\U{202F}' || ch == '\U{205F}'
    || ch == '\U{3000}' || ch == '\U{FEFF}'
  }

  /** `s` without its leading white space. */
  function TrimStart(s: string): (r: string)
    ensures |r| <= |s| && r == s[|s| - |r|..]
    ensures forall k :: 0 <= k < |s| - |r| ==> IsSpace(s[k])
    ensures |r| > 0 ==> !IsSpace(r[0])
    decreases |s|
  {
    if |s| > 0 && IsSpace(s[0]) then TrimStart(s[1..]) else s
  }

  /** `s` without its trailing white space. */
  function TrimEnd(s: string): (r: string)
    ensures |r| <= |s| && r == s[..|r|]
    ensures forall k :: |r| <= k < |s| ==> IsSpace(s[k])
    ensures |r| > 0 ==> !IsSpace(r[|r| - 1])
    decreases |s|
  {
    if |s| > 0 && IsSpace(s[|s| - 1]) then TrimEnd(s[..|s| - 1]) else s
  }

  /** `r` is `s` with white space, and only white space, cut from both
      ends, and neither end of `r` is white space. */
  predicate TrimmedFrom(r: string, s: string)
  {
    && (exists a, b :: 0 <= a <= b <= |s| && TrimCut(s, a, b) && r == s[a..b])
    && (|r| > 0 ==> !IsSpace(r[0]) && !IsSpace(r[|r| - 1]))
  }

  /** Cutting `s` before `a` and after `b` cuts off white space only. */
  predicate TrimCut(s: string, a: int, b: int)
  {
    && 0 <= a <= b <= |s|
    && (forall k :: 0 <= k < a ==> IsSpace(s[k]))
    && (forall k :: b <= k < |s| ==> IsSpace(s[k]))
  }

  /** `s.trim()`: `s` without leading and trailing white space; what is
      left is a contiguous piece of `s` (see `TrimTrims`). */
  function Trim(s: string): (r: string)
    ensures forall ch :: ch in r ==> ch in s
    ensures |r| > 0 ==> !IsSpace(r[0]) && !IsSpace(r[|r| - 1])
  {
    var t := TrimStart(s);
    var r := TrimEnd(t);
    assert forall ch :: ch in r ==> ch in t;
    r
  }

  /** `Trim` cuts white space, and only white space, from both ends; with
      `TrimmedUnique`, this determines its result. */
  lemma TrimTrims(s: string)
    ensures TrimmedFrom(Trim(s), s)
  {
    TrimBoth(s, TrimStart(s), TrimEnd(TrimStart(s)));
  }

  /** Cutting white space from the front, then from the back, trims. */
  lemma TrimBoth(s: string, t: string, r: string)
    requires |t| <= |s| && t == s[|s| - |t|..] && forall k :: 0 <= k < |s| - |t| ==> IsSpace(s[k])
    requires |r| <= |t| && r == t[..|r|] && forall k :: |r| <= k < |t| ==> IsSpace(t[k])
    requires |t| > 0 ==> !IsSpace(t[0])
    requires |r| > 0 ==> !IsSpace(r[|r| - 1])
    ensures TrimmedFrom(r, s)
    ensures forall ch :: ch in r ==> ch in s
  {
    var a := |s| - |t|;
    var b := a + |r|;
    assert r == s[a..b];
    assert forall k :: b <= k < |s| ==> s[k] == t[k - a];
    assert |r| > 0 ==> r[0] == t[0];
    assert TrimCut(s, a, b);
  }

  /** Only one piece of a string is trimmed from it: trimming is a
      function of the string. */
  lemma TrimmedUnique(r1: string, r2: string, s: string)
    requires TrimmedFrom(r1, s) && TrimmedFrom(r2, s)
    ensures r1 == r2
  {
    var a1, b1 :| TrimCut(s, a1, b1) && r1 == s[a1..b1];
    var a2, b2 :| TrimCut(s, a2, b2) && r2 == s[a2..b2];
    CutsAgree(s, a1, b1, a2, b2);
  }

  /** Two cuts that leave only white space outside and none at the ends of
      what they keep keep the same piece. */
  lemma CutsAgree(s: string, a1: int, b1: int, a2: int, b2: int)
    requires TrimCut(s, a1, b1) && TrimCut(s, a2, b2)
    requires |s[a1..b1]| > 0 ==> !IsSpace(s[a1..b1][0]) && !IsSpace(s[a1..b1][|s[a1..b1]| - 1])
    requires |s[a2..b2]| > 0 ==> !IsSpace(s[a2..b2][0]) && !IsSpace(s[a2..b2][|s[a2..b2]| - 1])
    ensures s[a1..b1] == s[a2..b2]
  {
    if a1 < b1 && a2 < b2 {
      assert s[a1..b1][0] == s[a1] && s[a2..b2][0] == s[a2];
      assert a1 == a2;
      assert s[a1..b1][b1 - a1 - 1] == s[b1 - 1] && s[a2..b2][b2 - a2 - 1] == s[b2 - 1];
      assert b1 == b2;
    }
  }

  // ---------------------------------------------------------------------------
  // global replace of a literal

  /** `s.replace(/pat/g, rep)` for a literal, non-empty `pat`: occurrences
      are found left to right and do not overlap. */
  function ReplaceAll(s: string, pat: string, rep: string): string
    requires |pat| > 0
    decreases |s|
  {
    if |s| < |pat| then s
    else if s[..|pat|] == pat then rep + ReplaceAll(s[|pat|..], pat, rep)
    else [s[0]] + ReplaceAll(s[1..], pat, rep)
  }

  /** Replacing every `c` by a string without `c` leaves no `c`. */
  lemma {:induction false} ReplaceAllRemoves(s: string, c: char, rep: string)
    requires c !in rep
    ensures c !in ReplaceAll(s, [c], rep)
    decreases |s|
  {
    if |s| >= 1 {
      ReplaceAllRemoves(s[1..], c, rep);
      if s[..1] == [c] {
        assert s[1..] == s[|[c]|..];
      } else {
        assert s[0] != c by { assert s[..1] == [s[0]]; }
      }
    }
  }

  // ---------------------------------------------------------------------------
  // number-to-string

  function DigitChar(d: nat): char
    requires d < 10
  {
    "0123456789"[d]
  }

  /** The decimal notation of `n`, as `String(n)` writes it. */
  function Decimal(n: nat): (r: string)
    ensures |r| >= 1
    ensures n >= 10 ==> |r| >= 2
    decreases n
  {
    if n < 10 then [DigitChar(n)] else Decimal(n / 10) + [DigitChar(n % 10)]
  }

  /** Different numbers are written differently. */
  lemma {:induction false} DecimalInjective(a: nat, b: nat)
    requires Decimal(a) == Decimal(b)
    ensures a == b
    decreases a
  {
    var da, db := Decimal(a), Decimal(b);
    if a < 10 && b < 10 {
      assert DigitChar(a) == da[0] == db[0] == DigitChar(b);
    } else if a >= 10 && b >= 10 {
      assert da[|da| - 1] == DigitChar(a % 10) && db[|db| - 1] == DigitChar(b % 10);
      assert a % 10 == b % 10;
      assert Decimal(a / 10) == da[..|da| - 1] == db[..|db| - 1] == Decimal(b / 10);
      DecimalInjective(a / 10, b / 10);
    }
  }

  // ---------------------------------------------------------------------------
  // sequences without repetitions

  ghost predicate Distinct<T>(s: seq<T>)
  {
    forall i, j :: 0 <= i < j < |s| ==> s[i] != s[j]
  }

  /** A repetition-free sequence whose elements all lie in `s` is no longer
      than `s` is large. */
  lemma {:induction false} DistinctBounded<T>(q: seq<T>, s: set<T>)
    requires Distinct(q)
    requires forall i :: 0 <= i < |q| ==> q[i] in s
    ensures |q| <= |s|
    decreases |q|
  {
    if |q| > 0 {
      var last := q[|q| - 1];
      var front := q[..|q| - 1];
      assert forall i :: 0 <= i < |front| ==> front[i] in s - {last} by {
        forall i | 0 <= i < |front| ensures front[i] in s - {last} {
          assert front[i] == q[i] && q[i] != q[|q| - 1];
        }
      }
      DistinctBounded(front, s - {last});
    }
  }

  /** A prefix one longer is the prefix and the next element. */
  lemma TakeOneMore<T>(q: seq<T>, i: nat)
    requires i < |q|
    ensures q[..i + 1] == q[..i] + [q[i]]
  {
  }

  /** The whole of a sequence is its longest prefix. */
  lemma TakeAll<T>(q: seq<T>)
    ensures q[..|q|] == q
  {
  }

  /** Two maps with the same keys and the same value at each key are equal. */
  lemma MapsEqual<K, V>(a: map<K, V>, b: map<K, V>)
    requires a.Keys == b.Keys && forall k :: k in a ==> a[k] == b[k]
    ensures a == b
  {
  }
}
