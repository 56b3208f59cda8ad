/**
 String order and `sort.Strings`, as the program uses them to make map iteration
 deterministic and to pick a story's owner.
 */
module Ordering {

  /** Strictly before in lexicographic order. */
  predicate Less(a: string, b: string) {
    b != [] && (a == [] || a[0] < b[0] || (a[0] == b[0] && Less(a[1..], b[1..])))
  }

  predicate Leq(a: string, b: string) {
    a == b || Less(a, b)
  }

  lemma {:induction false} LessTrichotomy(a: string, b: string)
    ensures Less(a, b) || a == b || Less(b, a)
    ensures !(Less(a, b) && a == b) && !(Less(a, b) && Less(b, a))
    decreases |a|
  {
    if a != [] && b != [] {
      LessTrichotomy(a[1..], b[1..]);
      assert a == [a[0]] + a[1..] && b == [b[0]] + b[1..];
    }
  }

  lemma {:induction false} LessTransitive(a: string, b: string, c: string)
    requires Less(a, b) && Less(b, c)
    ensures Less(a, c)
    decreases |a|
  {
    if a != [] && a[0] == b[0] == c[0] {
      LessTransitive(a[1..], b[1..], c[1..]);
    }
  }

  lemma LeqTransitive(a: string, b: string, c: string)
    requires Leq(a, b) && Leq(b, c)
    ensures Leq(a, c)
  {
    if a != b && b != c {
      LessTransitive(a, b, c);
    }
  }

  ghost predicate IsSorted(s: seq<string>) {
    forall i, j :: 0 <= i < j < |s| ==> Leq(s[i], s[j])
  }

  /** Sorted without repeats: the one listing of a set that sorting its keys can give. */
  ghost predicate StrictlySorted(s: seq<string>) {
    forall i, j :: 0 <= i < j < |s| ==> Less(s[i], s[j])
  }

  function Insert(x: string, s: seq<string>): (r: seq<string>)
    requires IsSorted(s)
    ensures IsSorted(r) && |r| == |s| + 1
    ensures multiset(r) == multiset(s) + multiset{x}
  {
    if s == [] then [x]
    else if Leq(x, s[0]) then
      assert IsSorted([x] + s) by { InsertFront(x, s); }
      [x] + s
    else
      assert s == [s[0]] + s[1..];
      var rest := Insert(x, s[1..]);
      assert IsSorted([s[0]] + rest) by { InsertBehind(x, s, rest); }
      [s[0]] + rest
  }

  lemma InsertFront(x: string, s: seq<string>)
    requires IsSorted(s) && s != [] && Leq(x, s[0])
    ensures IsSorted([x] + s)
  {
    forall j | 0 <= j < |s| ensures Leq(x, s[j]) {
      if j > 0 {
        LeqTransitive(x, s[0], s[j]);
      }
    }
  }

  lemma InsertBehind(x: string, s: seq<string>, rest: seq<string>)
    requires IsSorted(s) && s != [] && !Leq(x, s[0]) && IsSorted(rest)
    requires multiset(rest) == multiset(s[1..]) + multiset{x}
    ensures IsSorted([s[0]] + rest)
  {
    forall j | 0 <= j < |rest| ensures Leq(s[0], rest[j]) {
      assert rest[j] in multiset(rest);
      if rest[j] == x {
        LessTrichotomy(x, s[0]);
      } else {
        assert rest[j] in s[1..];
      }
    }
  }

  /** `sort.Strings` on a copy. */
  function Sorted(s: seq<string>): (r: seq<string>)
    ensures IsSorted(r) && |r| == |s|
    ensures multiset(r) == multiset(s)
  {
    if s == [] then []
    else
      assert s == [s[0]] + s[1..];
      Insert(s[0], Sorted(s[1..]))
  }

  /** Collecting the keys of a map in whatever order it yields them, then sorting. */
  method SortedKeys(keys: set<string>) returns (out: seq<string>)
    ensures StrictlySorted(out)
    ensures forall k :: k in out <==> k in keys
  {
    var collected: seq<string> := [];
    var rest := keys;
    while rest != {}
      invariant rest <= keys
      invariant forall k :: k in collected <==> k in keys - rest
      invariant multiset(collected) == multiset(keys - rest)
      decreases |rest|
    {
      var k :| k in rest;
      assert keys - (rest - {k}) == (keys - rest) + {k};
      collected := collected + [k];
      rest := rest - {k};
    }
    out := Sorted(collected);
    assert keys - rest == keys;
    SortedSetIsStrict(out, keys);
  }

  lemma RepeatCounted(s: seq<string>, i: nat, j: nat)
    requires i < j < |s| && s[i] == s[j]
    ensures multiset(s)[s[i]] >= 2
  {
    assert s == s[..i] + [s[i]] + s[i + 1..j] + [s[j]] + s[j + 1..];
  }

  lemma SortedSetIsStrict(s: seq<string>, keys: set<string>)
    requires IsSorted(s) && multiset(s) == multiset(keys)
    ensures StrictlySorted(s)
    ensures forall k :: k in s <==> k in keys
  {
    forall i, j | 0 <= i < j < |s| ensures Less(s[i], s[j]) {
      if s[i] == s[j] {
        RepeatCounted(s, i, j);
      }
    }
    forall k ensures k in s <==> k in keys {
      assert k in s <==> k in multiset(s);
    }
  }

  /** Two strict listings of one set are the same sequence. */
  lemma {:induction false} StrictListingUnique(a: seq<string>, b: seq<string>)
    requires StrictlySorted(a) && StrictlySorted(b)
    requires forall k :: k in a <==> k in b
    ensures a == b
    decreases |a|
  {
    if a == [] {
      assert forall i :: 0 <= i < |b| ==> b[i] in b;
    } else {
      assert a[0] in b;
      assert b[0] in a;
      LessTrichotomy(a[0], b[0]);
      assert a[0] == b[0];
      forall k ensures k in a[1..] <==> k in b[1..] {
        LessTrichotomy(a[0], a[0]);
        assert k in a <==> k == a[0] || k in a[1..];
        assert k in b <==> k == b[0] || k in b[1..];
        assert a[0] !in a[1..] && b[0] !in b[1..];
      }
      StrictListingUnique(a[1..], b[1..]);
      assert a == [a[0]] + a[1..] && b == [b[0]] + b[1..];
    }
  }

  /** The first of the sorted copy is the least element. */
  lemma SortedHeadIsLeast(s: seq<string>)
    requires s != []
    ensures Sorted(s)[0] in s
    ensures forall x :: x in s ==> Leq(Sorted(s)[0], x)
  {
    var r := Sorted(s);
    assert r[0] in multiset(r);
    forall x | x in s ensures Leq(r[0], x) {
      assert x in multiset(r);
      var i :| 0 <= i < |r| && r[i] == x;
    }
  }
}
