/** Sorting by a key of texts, as `sort_by` on Rust strings and tuples of strings does. */
module Ordering {

  type Key = seq<string>

  /** `str` order: by UTF-8 bytes, which is by code points. */
  predicate LessText(a: string, b: string) {
    if b == "" then false
    else if a == "" then true
    else a[0] < b[0] || (a[0] == b[0] && LessText(a[1..], b[1..]))
  }

  /** Tuples compare component by component. */
  predicate Less(a: Key, b: Key) {
    if b == [] then false
    else if a == [] then true
    else LessText(a[0], b[0]) || (a[0] == b[0] && Less(a[1..], b[1..]))
  }

  lemma {:induction false} TextTotal(a: string, b: string)
    ensures LessText(a, b) || a == b || LessText(b, a)
    ensures !(LessText(a, b) && LessText(b, a)) && !LessText(a, a)
    decreases |a|
  {
    if a != "" {
      TextTotal(a[1..], a[1..]);
      if b != "" {
        TextTotal(a[1..], b[1..]);
        if a[0] == b[0] && a[1..] == b[1..] { assert a == [a[0]] + a[1..] && b == [b[0]] + b[1..]; }
      }
    }
  }

  lemma {:induction false} TextTransitive(a: string, b: string, c: string)
    requires LessText(a, b) && LessText(b, c)
    ensures LessText(a, c)
  {
    if a != "" && a[0] == b[0] == c[0] { TextTransitive(a[1..], b[1..], c[1..]); }
  }

  lemma {:induction false} Total(a: Key, b: Key)
    ensures Less(a, b) || a == b || Less(b, a)
    ensures !(Less(a, b) && Less(b, a)) && !Less(a, a)
    decreases |a|
  {
    if a != [] {
      TextTotal(a[0], a[0]);
      Total(a[1..], a[1..]);
      if b != [] {
        TextTotal(a[0], b[0]);
        Total(a[1..], b[1..]);
        if a[0] == b[0] && a[1..] == b[1..] { assert a == [a[0]] + a[1..] && b == [b[0]] + b[1..]; }
      }
    }
  }

  lemma {:induction false} Transitive(a: Key, b: Key, c: Key)
    requires Less(a, b) && Less(b, c)
    ensures Less(a, c)
  {
    if a != [] {
      TextTotal(a[0], a[0]);
      if LessText(a[0], b[0]) && LessText(b[0], c[0]) { TextTransitive(a[0], b[0], c[0]); }
      if a[0] == b[0] == c[0] { Transitive(a[1..], b[1..], c[1..]); }
    }
  }

  /** The texts are alike up to `k`, where the first ends or has the smaller character. */
  predicate SmallerAt(a: string, b: string, k: nat) {
    && k < |b| && k <= |a| && a[..k] == b[..k]
    && (k == |a| || a[k] < b[k])
  }

  lemma {:induction false} LessTextMeans(a: string, b: string)
    ensures LessText(a, b) <==> exists k: nat :: SmallerAt(a, b, k)
    decreases |a|
  {
    if b == "" {
    } else if a == "" {
      assert SmallerAt(a, b, 0);
    } else {
      LessTextMeans(a[1..], b[1..]);
      if LessText(a, b) {
        if a[0] < b[0] {
          assert SmallerAt(a, b, 0);
        } else {
          var k: nat :| SmallerAt(a[1..], b[1..], k);
          assert a[..k + 1] == [a[0]] + a[1..][..k] && b[..k + 1] == [b[0]] + b[1..][..k];
          assert SmallerAt(a, b, k + 1);
        }
      }
      if k: nat :| SmallerAt(a, b, k) {
        if k > 0 {
          assert a[0] == a[..k][0] == b[..k][0] == b[0];
          assert a[1..][..k - 1] == a[..k][1..] && b[1..][..k - 1] == b[..k][1..];
          assert SmallerAt(a[1..], b[1..], k - 1);
        }
      }
    }
  }

  // ----- a stable sort -----------------------------------------------------------------------

  function Insert<T>(key: T -> Key, x: T, s: seq<T>): seq<T> {
    if s == [] then [x]
    else if Less(key(s[0]), key(x)) then [s[0]] + Insert(key, x, s[1..])
    else [x] + s
  }

  function Sort<T>(key: T -> Key, s: seq<T>): seq<T> {
    if s == [] then [] else Insert(key, s[0], Sort(key, s[1..]))
  }

  predicate Distinct<T>(key: T -> Key, s: seq<T>) {
    forall i, j | 0 <= i < j < |s| :: key(s[i]) != key(s[j])
  }

  predicate Strict<T>(key: T -> Key, s: seq<T>) {
    forall i, j | 0 <= i < j < |s| :: Less(key(s[i]), key(s[j]))
  }

  lemma {:induction false} InsertKeeps<T(!new)>(key: T -> Key, x: T, s: seq<T>)
    ensures |Insert(key, x, s)| == |s| + 1
    ensures forall y :: y in Insert(key, x, s) <==> y == x || y in s
  {
    if s != [] && Less(key(s[0]), key(x)) {
      InsertKeeps(key, x, s[1..]);
      assert s == [s[0]] + s[1..];
    }
  }

  lemma {:induction false} SortKeeps<T(!new)>(key: T -> Key, s: seq<T>)
    ensures |Sort(key, s)| == |s|
    ensures forall y :: y in Sort(key, s) <==> y in s
  {
    if s != [] {
      SortKeeps(key, s[1..]);
      InsertKeeps(key, s[0], Sort(key, s[1..]));
      assert s == [s[0]] + s[1..];
    }
  }

  lemma {:induction false} InsertCounts<T(!new)>(key: T -> Key, x: T, s: seq<T>)
    ensures multiset(Insert(key, x, s)) == multiset(s) + multiset{x}
  {
    if s != [] {
      InsertCounts(key, x, s[1..]);
      assert s == [s[0]] + s[1..];
    }
  }

  lemma {:induction false} SortCounts<T(!new)>(key: T -> Key, s: seq<T>)
    ensures multiset(Sort(key, s)) == multiset(s)
  {
    if s != [] {
      SortCounts(key, s[1..]);
      InsertCounts(key, s[0], Sort(key, s[1..]));
      assert s == [s[0]] + s[1..];
    }
  }

  lemma {:induction false} InsertStrict<T(!new)>(key: T -> Key, x: T, s: seq<T>)
    requires Strict(key, s)
    requires forall y | y in s :: key(y) != key(x)
    ensures Strict(key, Insert(key, x, s))
  {
    if s != [] {
      assert s[0] in s;
      Total(key(s[0]), key(x));
      if Less(key(s[0]), key(x)) {
        InsertStrict(key, x, s[1..]);
        InsertKeeps(key, x, s[1..]);
        var rest := Insert(key, x, s[1..]);
        forall j | 0 <= j < |rest| ensures Less(key(s[0]), key(rest[j])) {
          assert rest[j] in rest;
          if rest[j] != x {
            assert rest[j] in s[1..];
            var k :| 0 <= k < |s[1..]| && s[1..][k] == rest[j];
            assert s[k + 1] == rest[j];
          }
        }
      } else {
        forall j | 0 <= j < |s| ensures Less(key(x), key(s[j])) {
          if j > 0 { Transitive(key(x), key(s[0]), key(s[j])); }
        }
      }
    }
  }

  /** No later key is less than an earlier one. */
  predicate InOrder<T>(key: T -> Key, s: seq<T>) {
    forall i, j | 0 <= i < j < |s| :: !Less(key(s[j]), key(s[i]))
  }

  lemma NotLess(a: Key, b: Key, c: Key)
    requires !Less(b, a) && !Less(c, b)
    ensures !Less(c, a)
  {
    Total(a, b);
    Total(b, c);
    if Less(c, a) {
      Total(c, a);
      if Less(a, b) && b != c { Transitive(a, b, c); }
    }
  }

  lemma {:induction false} InsertInOrder<T(!new)>(key: T -> Key, x: T, s: seq<T>)
    requires InOrder(key, s)
    ensures InOrder(key, Insert(key, x, s))
  {
    if s != [] {
      Total(key(s[0]), key(x));
      if Less(key(s[0]), key(x)) {
        var rest := Insert(key, x, s[1..]);
        InsertInOrder(key, x, s[1..]);
        InsertKeeps(key, x, s[1..]);
        forall j | 0 <= j < |rest| ensures !Less(key(rest[j]), key(s[0])) {
          assert rest[j] in rest;
          if rest[j] != x {
            var k :| 0 <= k < |s[1..]| && s[1..][k] == rest[j];
            assert s[k + 1] == rest[j];
          }
        }
      } else {
        forall j | 0 <= j < |s| ensures !Less(key(s[j]), key(x)) {
          if j > 0 { NotLess(key(x), key(s[0]), key(s[j])); }
        }
      }
    }
  }

  /** What is sorted is in order. */
  lemma {:induction false} SortInOrder<T(!new)>(key: T -> Key, s: seq<T>)
    ensures InOrder(key, Sort(key, s))
  {
    if s != [] {
      SortInOrder(key, s[1..]);
      InsertInOrder(key, s[0], Sort(key, s[1..]));
    }
  }

  /** Entries with distinct keys come out strictly in order. */
  lemma {:induction false} SortStrict<T(!new)>(key: T -> Key, s: seq<T>)
    requires Distinct(key, s)
    ensures Strict(key, Sort(key, s))
  {
    if s != [] {
      SortStrict(key, s[1..]);
      SortKeeps(key, s[1..]);
      forall y | y in Sort(key, s[1..]) ensures key(y) != key(s[0]) {
        assert y in s[1..];
        var k :| 0 <= k < |s[1..]| && s[1..][k] == y;
        assert s[k + 1] == y;
      }
      InsertStrict(key, s[0], Sort(key, s[1..]));
    }
  }

  lemma StrictIsDistinct<T(!new)>(key: T -> Key, s: seq<T>)
    requires Strict(key, s)
    ensures Distinct(key, s)
  {
    forall i, j | 0 <= i < j < |s| ensures key(s[i]) != key(s[j]) {
      Total(key(s[i]), key(s[j]));
    }
  }

  lemma StrictHead<T(!new)>(key: T -> Key, s: seq<T>, t: seq<T>)
    requires Strict(key, s) && Strict(key, t) && s != [] && t != []
    requires s[0] in t && t[0] in s
    ensures s[0] == t[0]
  {
    var i :| 0 <= i < |t| && t[i] == s[0];
    var j :| 0 <= j < |s| && s[j] == t[0];
    if i > 0 && j > 0 {
      Total(key(s[0]), key(t[0]));
    }
  }

  lemma NoMembers<T(!new)>(t: seq<T>)
    ensures t == [] || exists y :: y in t
  {
    if t != [] { assert t[0] in t; }
  }

  /** A strictly sorted list is determined by its elements. */
  lemma {:induction false} StrictIsUnique<T(!new)>(key: T -> Key, s: seq<T>, t: seq<T>)
    requires Strict(key, s) && Strict(key, t)
    requires forall y :: y in s <==> y in t
    ensures s == t
    decreases |s|
  {
    if s == [] {
      NoMembers(t);
    } else {
      assert s[0] in t;
      assert t[0] in s;
      StrictHead(key, s, t);
      StrictIsDistinct(key, s);
      StrictIsDistinct(key, t);
      forall y ensures y in s[1..] <==> y in t[1..] {
        if y in s[1..] { Tail(key, s, t, y); }
        if y in t[1..] { Tail(key, t, s, y); }
      }
      StrictIsUnique(key, s[1..], t[1..]);
      assert s == [s[0]] + s[1..] && t == [t[0]] + t[1..];
    }
  }

  lemma Tail<T(!new)>(key: T -> Key, s: seq<T>, t: seq<T>, y: T)
    requires s != [] && t != [] && s[0] == t[0] && Distinct(key, s)
    requires y in s[1..] && y in t
    ensures y in t[1..]
  {
    var k :| 0 <= k < |s[1..]| && s[1..][k] == y;
    assert key(s[0]) != key(s[k + 1]);
    assert t == [t[0]] + t[1..];
  }

  // ----- permutations ------------------------------------------------------------------------

  lemma {:induction false} CountOnce<T(!new)>(s: seq<T>, x: T, i: nat)
    requires i < |s| && s[i] == x && forall j | 0 <= j < |s| && j != i :: s[j] != x
    ensures multiset(s)[x] == 1
  {
    assert s == s[..i] + [x] + s[i + 1..];
    assert x !in s[..i] && x !in s[i + 1..];
  }

  lemma CountTwice<T(!new)>(s: seq<T>, x: T, i: nat, j: nat)
    requires i < j < |s| && s[i] == s[j] == x
    ensures multiset(s)[x] >= 2
  {
    assert s == s[..i] + [x] + s[i + 1..j] + [x] + s[j + 1..];
  }

  lemma SameMembers<T(!new)>(s: seq<T>, t: seq<T>)
    requires multiset(s) == multiset(t)
    ensures forall y :: y in s <==> y in t
  {
    forall y ensures y in s <==> y in t {
      assert y in s <==> y in multiset(s);
      assert y in t <==> y in multiset(t);
    }
  }

  /** Reordering entries keeps their keys distinct. */
  lemma PermutedDistinct<T(!new)>(key: T -> Key, s: seq<T>, t: seq<T>)
    requires Distinct(key, s) && multiset(s) == multiset(t)
    ensures Distinct(key, t)
  {
    forall i, j | 0 <= i < j < |t| ensures key(t[i]) != key(t[j]) {
      if key(t[i]) == key(t[j]) {
        SameMembers(s, t);
        assert t[i] in t && t[j] in t;
        var a :| 0 <= a < |s| && s[a] == t[i];
        var b :| 0 <= b < |s| && s[b] == t[j];
        assert a == b;
        CountTwice(t, t[i], i, j);
        CountOnce(s, t[i], a);
        assert false;
      }
    }
  }

  /** Sorting by one key keeps another distinct, or not. */
  lemma SortKeepsDistinct<T(!new)>(key: T -> Key, other: T -> Key, s: seq<T>)
    ensures Distinct(other, Sort(key, s)) <==> Distinct(other, s)
  {
    SortCounts(key, s);
    if Distinct(other, s) { PermutedDistinct(other, s, Sort(key, s)); }
    if Distinct(other, Sort(key, s)) { PermutedDistinct(other, Sort(key, s), s); }
  }

  /** Two entries of one key come out in the order they went in. */
  lemma {:induction false} TiesKeepOrder<T(!new)>(key: T -> Key, x: T, y: T, s: seq<T>)
    requires key(x) == key(y) && x != y
    ensures Insert(key, x, Insert(key, y, s)) != Insert(key, y, Insert(key, x, s))
  {
    Total(key(x), key(y));
    var a, b := Insert(key, x, Insert(key, y, s)), Insert(key, y, Insert(key, x, s));
    if s != [] && Less(key(s[0]), key(x)) {
      TiesKeepOrder(key, x, y, s[1..]);
      var xs, ys := Insert(key, x, s[1..]), Insert(key, y, s[1..]);
      assert ([s[0]] + ys)[1..] == ys && ([s[0]] + xs)[1..] == xs;
      assert a[1..] == Insert(key, x, ys) && b[1..] == Insert(key, y, xs);
    } else {
      assert a[0] == x && b[0] == y;
    }
  }

  lemma SwapSorts<T(!new)>(key: T -> Key, s: seq<T>, t: seq<T>)
    requires |s| == |t| >= 2 && s[0] == t[1] && s[1] == t[0] && s[2..] == t[2..]
    requires key(s[0]) == key(s[1]) && s[0] != s[1]
    ensures Sort(key, s) != Sort(key, t)
  {
    assert s[1..][1..] == s[2..] && t[1..][1..] == t[2..];
    TiesKeepOrder(key, s[0], s[1], Sort(key, s[2..]));
  }

  /** Two entries taken out to the front, in either order. */
  lemma PullOut<T(!new)>(s: seq<T>, i: nat, j: nat) returns (one: seq<T>, other: seq<T>)
    requires i < j < |s|
    ensures multiset(one) == multiset(s) == multiset(other) && |one| == |other| >= 2
    ensures one[0] == other[1] == s[i] && one[1] == other[0] == s[j] && one[2..] == other[2..]
  {
    var a, b, c := s[..i], s[i + 1..j], s[j + 1..];
    var rest := a + b + c;
    one, other := [s[i], s[j]] + rest, [s[j], s[i]] + rest;
    assert s == a + [s[i]] + b + [s[j]] + c;
    FrontCounts(s[i], s[j], a, b, c);
    FrontCounts(s[j], s[i], a, b, c);
    assert one[2..] == rest == other[2..];
  }

  lemma FrontCounts<T(!new)>(x: T, y: T, a: seq<T>, b: seq<T>, c: seq<T>)
    ensures multiset([x, y] + (a + b + c)) == multiset{x, y} + multiset(a) + multiset(b) + multiset(c)
    ensures multiset(a + [x] + b + [y] + c) == multiset{x, y} + multiset(a) + multiset(b) + multiset(c)
  {
  }
}
