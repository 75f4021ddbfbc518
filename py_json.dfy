/*
 * JSON values as Python's `json` module hands them to the application, Python
 * dictionaries as insertion-ordered association lists, and the few `str`
 * operations the timer relies on (`strip`, `lower`, `in`, `startswith`,
 * `split('_')[0]`) and Python's truthiness.
 */
module PyJson {

  datatype Option<T> = None | Some(value: T)

  /** A JSON document value. Objects keep Python's insertion order. */
  datatype Json =
    | JNull
    | JBool(b: bool)
    | JInt(i: int)
    | JFloat(r: real)
    | JStr(s: string)
    | JList(items: seq<Json>)
    | JObj(fields: seq<(string, Json)>)

  /** Python truthiness of a JSON value (`if value:`). */
  predicate Truthy(v: Json)
  {
    match v
    case JNull => false
    case JBool(b) => b
    case JInt(i) => i != 0
    case JFloat(r) => r != 0.0
    case JStr(s) => s != []
    case JList(items) => items != []
    case JObj(fields) => fields != []
  }

  // ---------------------------------------------------------------------
  // Ordered dictionaries
  // ---------------------------------------------------------------------

  /** The keys of an association list. */
  function KeySet<V>(a: seq<(string, V)>): set<string>
  {
    if |a| == 0 then {} else {a[0].0} + KeySet(a[1..])
  }

  /** No key occurs twice, as in a real Python dict. */
  predicate DistinctKeys<V>(a: seq<(string, V)>)
  {
    forall i, j :: 0 <= i < j < |a| ==> a[i].0 != a[j].0
  }

  /** `d.get(k)`: the value stored under the first occurrence of `k`. */
  function Get<V>(a: seq<(string, V)>, k: string): (r: Option<V>)
    ensures r.Some? <==> k in KeySet(a)
  {
    if |a| == 0 then None
    else if a[0].0 == k then Some(a[0].1)
    else Get(a[1..], k)
  }

  /** With distinct keys, the lookup of an entry's key finds that entry. */
  lemma {:induction false} GetFirst<V>(a: seq<(string, V)>, i: int)
    requires 0 <= i < |a| && forall p, q :: 0 <= p < q < |a| ==> a[p].0 != a[q].0
    ensures Get(a, a[i].0) == Some(a[i].1)
  {
    if i > 0 {
      GetFirst(a[1..], i - 1);
    }
  }

  /** One step of a lookup. */
  lemma GetCons<V>(x: (string, V), rest: seq<(string, V)>, k: string)
    ensures Get([x] + rest, k) == (if x.0 == k then Some(x.1) else Get(rest, k))
  {
    assert ([x] + rest)[1..] == rest;
  }

  /** A lookup in a concatenation looks in the first part first. */
  lemma {:induction false} GetAppend<V>(a: seq<(string, V)>, b: seq<(string, V)>, k: string)
    ensures Get(a + b, k) == if Get(a, k).Some? then Get(a, k) else Get(b, k)
  {
    if |a| > 0 {
      assert (a + b)[1..] == a[1..] + b;
      assert (a + b)[0] == a[0];
      GetAppend(a[1..], b, k);
    } else {
      assert a + b == b;
    }
  }

  /** `d[k] = v`: replaces the value in place, or appends a new entry. */
  function Put<V>(a: seq<(string, V)>, k: string, v: V): (r: seq<(string, V)>)
    ensures KeySet(r) == KeySet(a) + {k}
    ensures Get(r, k) == Some(v)
    ensures forall j :: j != k ==> Get(r, j) == Get(a, j)
    ensures k !in KeySet(a) ==> r == a + [(k, v)]
  {
    if |a| == 0 then [(k, v)]
    else if a[0].0 == k then [(k, v)] + a[1..]
    else [a[0]] + Put(a[1..], k, v)
  }

  /** An entry of `Put(a, k, v)` is the new entry or an old one. */
  lemma {:induction false} PutElements<V>(a: seq<(string, V)>, k: string, v: V)
    ensures forall x :: x in Put(a, k, v) ==> x == (k, v) || x in a
  {
    if |a| > 0 && a[0].0 != k {
      PutElements(a[1..], k, v);
      assert forall x :: x in a[1..] ==> x in a;
    }
  }

  lemma {:induction false} InKeySet<V>(a: seq<(string, V)>, x: (string, V))
    requires x in a
    ensures x.0 in KeySet(a)
  {
    if a[0] != x {
      InKeySet(a[1..], x);
    }
  }

  lemma {:induction false} NotInKeySet<V>(a: seq<(string, V)>, k: string)
    requires forall i :: 0 <= i < |a| ==> a[i].0 != k
    ensures k !in KeySet(a)
  {
    if |a| > 0 {
      NotInKeySet(a[1..], k);
    }
  }

  lemma DistinctHead<V>(a: seq<(string, V)>)
    requires |a| > 0 && DistinctKeys(a)
    ensures a[0].0 !in KeySet(a[1..]) && DistinctKeys(a[1..])
  {
    NotInKeySet(a[1..], a[0].0);
  }

  /** Storing into a dict keeps its keys distinct. */
  lemma {:induction false} PutDistinct<V>(a: seq<(string, V)>, k: string, v: V)
    requires DistinctKeys(a)
    ensures DistinctKeys(Put(a, k, v))
  {
    if |a| > 0 && a[0].0 != k {
      DistinctHead(a);
      PutDistinct(a[1..], k, v);
      var rest := Put(a[1..], k, v);
      forall x | x in rest ensures x.0 != a[0].0 {
        InKeySet(rest, x);
      }
    }
  }

  /** `d.setdefault(k, v)`: stores `v` only when `k` is absent. */
  function SetDefault<V>(a: seq<(string, V)>, k: string, v: V): (r: seq<(string, V)>)
    ensures k in KeySet(a) ==> r == a
    ensures k !in KeySet(a) ==> r == a + [(k, v)]
  {
    if k in KeySet(a) then a else Put(a, k, v)
  }

  /** `d.pop(k, None)`: removes the key. */
  function Remove<V>(a: seq<(string, V)>, k: string): (r: seq<(string, V)>)
    ensures KeySet(r) == KeySet(a) - {k}
    ensures forall j :: j != k ==> Get(r, j) == Get(a, j)
  {
    if |a| == 0 then []
    else if a[0].0 == k then Remove(a[1..], k)
    else [a[0]] + Remove(a[1..], k)
  }

  /** Field lookup on a JSON value that is expected to be an object. */
  function Field(v: Json, k: string): Option<Json>
  {
    if v.JObj? then Get(v.fields, k) else None
  }

  /** `d.get(k, default)` on a settings map. */
  function GetOr(m: map<string, Json>, k: string, d: Json): Json
  {
    if k in m then m[k] else d
  }

  // ---------------------------------------------------------------------
  // Strings
  // ---------------------------------------------------------------------

  /** The characters Python's `str.strip()` removes (`str.isspace`). */
  predicate IsSpace(c: char)
  {
    var n := c as int;
    (9 <= n <= 13) || (28 <= n <= 32) || n == 0x85 || n == 0xA0 || n == 0x1680
    || (0x2000 <= n <= 0x200A) || n == 0x2028 || n == 0x2029 || n == 0x202F
    || n == 0x205F || n == 0x3000
  }

  function TrimLeft(s: string): (r: string)
    ensures |r| <= |s| && r == s[|s| - |r|..]
    ensures r == [] || !IsSpace(r[0])
    ensures forall i :: 0 <= i < |s| - |r| ==> IsSpace(s[i])
  {
    if |s| > 0 && IsSpace(s[0]) then TrimLeft(s[1..]) else s
  }

  function TrimRight(s: string): (r: string)
    ensures |r| <= |s| && r == s[..|r|]
    ensures r == [] || !IsSpace(r[|r| - 1])
    ensures forall i :: |r| <= i < |s| ==> IsSpace(s[i])
  {
    if |s| > 0 && IsSpace(s[|s| - 1]) then TrimRight(s[..|s| - 1]) else s
  }

  /** `s.strip()`: the text without leading and trailing whitespace. */
  function Strip(s: string): (r: string)
    ensures |r| <= |s|
    ensures r == [] || (!IsSpace(r[0]) && !IsSpace(r[|r| - 1]))
  {
    TrimRight(TrimLeft(s))
  }

  /** Stripping twice is stripping once. */
  lemma StripIdempotent(s: string)
    ensures Strip(Strip(s)) == Strip(s)
  {
    var t := Strip(s);
    assert TrimLeft(t) == t;
    assert TrimRight(t) == t;
  }

  /** A string with some non-whitespace character (`v.strip()` is truthy). */
  predicate NonBlank(s: string)
  {
    !forall i :: 0 <= i < |s| ==> IsSpace(s[i])
  }

  /** `s.strip()` is empty exactly when `s` is blank. */
  lemma NonBlankStrip(s: string)
    ensures NonBlank(s) <==> Strip(s) != []
  {
    var l := TrimLeft(s);
    if Strip(s) == [] {
      assert l == [];
    }
  }

  function LowerChar(c: char): char
  {
    if 'A' <= c <= 'Z' then (c as int + 32) as char else c
  }

  /** `s.lower()` restricted to ASCII letters. */
  function Lower(s: string): (r: string)
    ensures |r| == |s|
    ensures forall i :: 0 <= i < |s| ==> r[i] == LowerChar(s[i])
  {
    if s == [] then [] else [LowerChar(s[0])] + Lower(s[1..])
  }

  /** `s.startswith(p)`. */
  predicate StartsWith(s: string, p: string)
  {
    |p| <= |s| && s[..|p|] == p
  }

  /** `sub in s`. */
  predicate Contains(s: string, sub: string)
    decreases |s|
  {
    StartsWith(s, sub) || (|s| > 0 && Contains(s[1..], sub))
  }

  /** `sub` starting at position `k` of `s` is an occurrence. */
  lemma {:induction false} ContainsAt(s: string, sub: string, k: nat)
    requires k <= |s| && StartsWith(s[k..], sub)
    ensures Contains(s, sub)
    decreases k
  {
    if k > 0 {
      assert s[1..][k - 1..] == s[k..];
      ContainsAt(s[1..], sub, k - 1);
    }
  }

  /** `sub in s` stated by the position of an occurrence. */
  predicate Occurs(s: string, sub: string)
  {
    exists k :: 0 <= k <= |s| && StartsWith(s[k..], sub)
  }

  /** `Occurs` and `Contains` are the same test. */
  lemma {:induction false} OccursIsContains(s: string, sub: string)
    ensures Occurs(s, sub) <==> Contains(s, sub)
    decreases |s|
  {
    if Occurs(s, sub) {
      var k :| 0 <= k <= |s| && StartsWith(s[k..], sub);
      ContainsAt(s, sub, k);
    }
    if Contains(s, sub) {
      if StartsWith(s, sub) {
        assert s[0..] == s;
      } else {
        OccursIsContains(s[1..], sub);
        var k :| 0 <= k <= |s[1..]| && StartsWith(s[1..][k..], sub);
        assert s[1..][k..] == s[k + 1..];
      }
    }
  }

  /** An occurrence in `b` is one in `a + b`. */
  lemma {:induction false} ContainsInRight(a: string, b: string, sub: string)
    requires Contains(b, sub)
    ensures Contains(a + b, sub)
    decreases |a|
  {
    if |a| > 0 {
      assert (a + b)[1..] == a[1..] + b;
      ContainsInRight(a[1..], b, sub);
    } else {
      assert a + b == b;
    }
  }

  /** An occurrence in `a` is one in `a + b`. */
  lemma {:induction false} ContainsInLeft(a: string, b: string, sub: string)
    requires Contains(a, sub)
    ensures Contains(a + b, sub)
    decreases |a|
  {
    if StartsWith(a, sub) {
      assert (a + b)[..|sub|] == a[..|sub|];
    } else {
      assert (a + b)[1..] == a[1..] + b;
      ContainsInLeft(a[1..], b, sub);
    }
  }

  /** No `x` in `s` is directly followed by `y`. */
  predicate NoPair(s: string, x: char, y: char)
    decreases |s|
  {
    |s| < 2 || (!(s[0] == x && s[1] == y) && NoPair(s[1..], x, y))
  }

  /** Text without one of the two characters has no such pair. */
  lemma {:induction false} NoPairWithout(s: string, x: char, y: char)
    requires x !in s || y !in s
    ensures NoPair(s, x, y)
    decreases |s|
  {
    if |s| >= 2 {
      assert forall c :: c in s[1..] ==> c in s;
      NoPairWithout(s[1..], x, y);
    }
  }

  /** Joining two pieces adds no pair when the first does not end in `x`. */
  lemma {:induction false} NoPairAppend(a: string, b: string, x: char, y: char)
    requires NoPair(a, x, y) && NoPair(b, x, y)
    requires |a| == 0 || a[|a| - 1] != x
    ensures NoPair(a + b, x, y)
    decreases |a|
  {
    if |a| > 0 {
      assert (a + b)[1..] == a[1..] + b;
      NoPairAppend(a[1..], b, x, y);
      if |a| == 1 {
        assert (a + b)[0] == a[|a| - 1];
      } else {
        assert (a + b)[0] == a[0] && (a + b)[1] == a[1];
      }
    } else {
      assert a + b == b;
    }
  }

  /** A text holding `sub` holds every pair of adjacent characters of `sub`. */
  lemma {:induction false} ContainsPair(s: string, sub: string, k: nat)
    requires Contains(s, sub) && k + 1 < |sub|
    ensures !NoPair(s, sub[k], sub[k + 1])
    decreases |s|
  {
    if StartsWith(s, sub) {
      assert s[k] == sub[k] && s[k + 1] == sub[k + 1];
      NoPairAt(s, sub[k], sub[k + 1], k);
    } else {
      ContainsPair(s[1..], sub, k);
    }
  }

  lemma {:induction false} NoPairAt(s: string, x: char, y: char, k: nat)
    requires k + 1 < |s| && s[k] == x && s[k + 1] == y
    ensures !NoPair(s, x, y)
    decreases k
  {
    if k > 0 {
      NoPairAt(s[1..], x, y, k - 1);
    }
  }

  /** `s.split('_')[0]`: the text before the first underscore. */
  function HeadBefore(s: string, sep: char): (r: string)
    ensures |r| <= |s| && r == s[..|r|]
    ensures sep !in r
    ensures |r| < |s| ==> s[|r|] == sep
  {
    if s == [] || s[0] == sep then [] else [s[0]] + HeadBefore(s[1..], sep)
  }

  /** The language part of a locale code: `"zh_CN"` gives `"zh"`. */
  function LanguagePrefix(code: string): string
  {
    HeadBefore(code, '_')
  }

  /** Joins parts with a separator (`sep.join(parts)`). */
  function Join(parts: seq<string>, sep: string): (r: string)
    ensures |parts| == 1 ==> r == parts[0]
  {
    if |parts| == 0 then []
    else if |parts| == 1 then parts[0]
    else parts[0] + sep + Join(parts[1..], sep)
  }
}
