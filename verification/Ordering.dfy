/** sort.Strings: the octet order on strings and the one ascending list of a set. */
module Ordering {
  import opened Bytes

  /** Strictly before, octet by octet; a proper prefix comes first. */
  predicate Less(a: bytes, b: bytes)
    decreases |a|
  {
    if b == [] then false
    else if a == [] then true
    else a[0] < b[0] || (a[0] == b[0] && Less(a[1..], b[1..]))
  }

  lemma {:induction false} LessTrans(a: bytes, b: bytes, c: bytes)
    requires Less(a, b) && Less(b, c)
    ensures Less(a, c)
    decreases |a|
  {
    if a != [] && a[0] == b[0] && b[0] == c[0] { LessTrans(a[1..], b[1..], c[1..]); }
  }

  lemma {:induction false} LessIrreflexive(a: bytes)
    ensures !Less(a, a)
    decreases |a|
  {
    if a != [] { LessIrreflexive(a[1..]); }
  }

  lemma {:induction false} LessTotal(a: bytes, b: bytes)
    ensures a == b || Less(a, b) || Less(b, a)
    decreases |a|
  {
    if a == [] || b == [] {
    } else if a[0] == b[0] {
      LessTotal(a[1..], b[1..]);
      assert a == [a[0]] + a[1..] && b == [b[0]] + b[1..];
    }
  }

  /** Up to k they are equal, and there a ends or has the smaller octet. */
  predicate PartsAt(a: bytes, b: bytes, k: nat) {
    && k <= |a| && k <= |b| && a[..k] == b[..k]
    && ((k == |a| && k < |b|) || (k < |a| && k < |b| && a[k] < b[k]))
  }

  ghost predicate ComesBefore(a: bytes, b: bytes) {
    exists k: nat :: PartsAt(a, b, k)
  }

  lemma PartsLater(a: bytes, b: bytes, k: nat)
    requires a != [] && b != [] && a[0] == b[0] && k > 0
    ensures PartsAt(a, b, k) <==> PartsAt(a[1..], b[1..], k - 1)
  {
    var x, y := a[1..], b[1..];
    assert a == [a[0]] + x && b == [b[0]] + y;
    if k <= |a| && k <= |b| {
      assert a[..k] == [a[0]] + x[..k - 1] && b[..k] == [b[0]] + y[..k - 1];
      assert x[..k - 1] == a[..k][1..] && y[..k - 1] == b[..k][1..];
    }
  }

  lemma PartsFirst(a: bytes, b: bytes, k: nat)
    requires a == [] || b == [] || a[0] != b[0]
    ensures PartsAt(a, b, k) <==> k == 0 && b != [] && (a == [] || a[0] < b[0])
  {
    if k > 0 && k <= |a| && k <= |b| { assert a[..k][0] == a[0] && b[..k][0] == b[0]; }
  }

  /** The recursion computes the order of the first difference. */
  lemma {:induction false} LessIsComesBefore(a: bytes, b: bytes)
    ensures Less(a, b) <==> ComesBefore(a, b)
    decreases |a|
  {
    hide PartsAt;
    if a == [] || b == [] || a[0] != b[0] {
      PartsFirst(a, b, 0);
      if k: nat :| PartsAt(a, b, k) { PartsFirst(a, b, k); }
    } else {
      LessIsComesBefore(a[1..], b[1..]);
      if k: nat :| PartsAt(a[1..], b[1..], k) { PartsLater(a, b, k + 1); }
      if k: nat :| PartsAt(a, b, k) { if k > 0 { PartsLater(a, b, k); } else { SameFirst(a, b); } }
    }
  }

  lemma SameFirst(a: bytes, b: bytes)
    requires a != [] && b != [] && a[0] == b[0]
    ensures !PartsAt(a, b, 0)
  {
  }

  /** Each comes before the next. */
  ghost predicate InOrder(s: seq<bytes>) {
    forall i :: 0 <= i < |s| - 1 ==> ComesBefore(s[i], s[i + 1])
  }

  lemma {:induction false} OrderTrans(s: seq<bytes>, i: nat, j: nat)
    requires InOrder(s) && i < j < |s|
    ensures Less(s[i], s[j])
    decreases j
  {
    LessIsComesBefore(s[j - 1], s[j]);
    if i < j - 1 {
      OrderTrans(s, i, j - 1);
      LessTrans(s[i], s[j - 1], s[j]);
    }
  }

  /** The list whose neighbours are in order is the ascending one. */
  lemma InOrderIsSorted(s: seq<bytes>)
    ensures InOrder(s) <==> s == Sorted(Members(s))
  {
    hide ComesBefore, Less;
    if InOrder(s) {
      forall i, j | 0 <= i < j < |s| ensures Less(s[i], s[j]) { OrderTrans(s, i, j); }
      AscendingUnique(s, Sorted(Members(s)));
    }
    if s == Sorted(Members(s)) {
      forall i | 0 <= i < |s| - 1 ensures ComesBefore(s[i], s[i + 1]) { LessIsComesBefore(s[i], s[i + 1]); }
    }
  }

  predicate Ascending(s: seq<bytes>) {
    forall i, j :: 0 <= i < j < |s| ==> Less(s[i], s[j])
  }

  ghost function Members(s: seq<bytes>): set<bytes> {
    set x | x in s
  }

  lemma NoMembers(s: seq<bytes>)
    ensures s == [] <==> Members(s) == {}
  {
    if s != [] { assert s[0] in Members(s); }
  }

  lemma AppendMember(s: seq<bytes>, x: bytes)
    ensures Members(s + [x]) == Members(s) + {x}
  {
    assert forall y :: y in s + [x] <==> y in s || y == x;
  }

  /** There is only one ascending list of a set. */
  lemma {:induction false} AscendingUnique(s: seq<bytes>, t: seq<bytes>)
    requires Ascending(s) && Ascending(t) && Members(s) == Members(t)
    ensures s == t
  {
    NoMembers(s);
    NoMembers(t);
    if s != [] {
      assert s[0] in Members(s);
      assert t != [] && t[0] in Members(t);
      HeadLeast(s, t[0]);
      HeadLeast(t, s[0]);
      if Less(s[0], t[0]) && Less(t[0], s[0]) {
        LessTrans(s[0], t[0], s[0]);
        LessIrreflexive(s[0]);
      }
      TailMembers(s);
      TailMembers(t);
      AscendingUnique(s[1..], t[1..]);
      assert s == [s[0]] + s[1..] && t == [t[0]] + t[1..];
    }
  }

  lemma HeadLeast(s: seq<bytes>, x: bytes)
    requires Ascending(s) && s != [] && x in s
    ensures x == s[0] || Less(s[0], x)
  {
  }

  lemma TailMembers(s: seq<bytes>)
    requires Ascending(s) && s != []
    ensures Members(s[1..]) == Members(s) - {s[0]}
  {
    LessIrreflexive(s[0]);
    assert s == [s[0]] + s[1..];
    assert forall i :: 1 <= i < |s| ==> Less(s[0], s[i]);
  }

  /** Puts x in its place. */
  function Insert(s: seq<bytes>, x: bytes): (r: seq<bytes>)
    requires Ascending(s) && x !in s
    ensures Ascending(r) && Members(r) == Members(s) + {x}
  {
    if s == [] then [x]
    else if Less(x, s[0]) then
      assert Ascending([x] + s) by {
        forall j | 0 <= j < |s| ensures Less(x, s[j]) {
          if j > 0 { LessTrans(x, s[0], s[j]); }
        }
      }
      [x] + s
    else
      LessTotal(x, s[0]);
      var t := Insert(s[1..], x);
      assert Ascending([s[0]] + t) by {
        forall j | 0 <= j < |t| ensures Less(s[0], t[j]) {
          assert t[j] in Members(t);
        }
      }
      assert s == [s[0]] + s[1..];
      [s[0]] + t
  }

  /** The ascending list of a set. */
  ghost function Sorted(keys: set<bytes>): (s: seq<bytes>)
    ensures Ascending(s) && Members(s) == keys
  {
    if keys == {} then []
    else
      var k :| k in keys;
      Insert(Sorted(keys - {k}), k)
  }

  predicate Distinct(s: seq<bytes>) {
    forall i, j :: 0 <= i < j < |s| ==> s[i] != s[j]
  }

  /** The keys of a map, in whatever order it yields them. */
  method Keys<V>(m: map<bytes, V>) returns (names: seq<bytes>)
    ensures Distinct(names) && Members(names) == m.Keys
  {
    names := [];
    var left := m.Keys;
    while left != {}
      invariant left <= m.Keys
      invariant Distinct(names) && Members(names) == m.Keys - left
      decreases left
    {
      var k :| k in left;
      assert k !in Members(names);
      AppendMember(names, k);
      names := names + [k];
      left := left - {k};
    }
  }

  /** sort.Strings on distinct strings. */
  method SortStrings(names: seq<bytes>) returns (sorted: seq<bytes>)
    requires Distinct(names)
    ensures sorted == Sorted(Members(names))
  {
    sorted := [];
    var i := 0;
    while i < |names|
      invariant 0 <= i <= |names|
      invariant Ascending(sorted) && Members(sorted) == Members(names[..i])
    {
      assert names[i] !in Members(names[..i]);
      assert names[..i + 1] == names[..i] + [names[i]];
      AppendMember(names[..i], names[i]);
      sorted := Insert(sorted, names[i]);
      i := i + 1;
    }
    assert names[..i] == names;
    AscendingUnique(sorted, Sorted(Members(names)));
  }

  /** The keys of a map, sorted. */
  method SortedKeys<V>(m: map<bytes, V>) returns (names: seq<bytes>)
    ensures names == Sorted(m.Keys)
  {
    hide Ascending, Distinct, Members, Sorted;
    names := Keys(m);
    names := SortStrings(names);
  }
}
