/**
 The usage ranker: a per-id activation counter and the order it induces on
 scenes (most used first, then by name). The source sorts with the runtime's
 array sort and a three-way comparator; the model sorts in place with an
 insertion sort (stable, as the runtime's sort is) and specifies the result by
 a functional insertion sort on sequences.
 */
module UsageSorter {
  import opened Devices
  import opened EntityLists

  // ---------------------------------------------------------------------------
  // String order

  /** JavaScript's `a < b` on strings: lexicographic by character, a proper prefix first. */
  predicate StrLess(a: string, b: string) {
    if a == [] then b != []
    else if b == [] then false
    else if a[0] != b[0] then a[0] < b[0]
    else StrLess(a[1..], b[1..])
  }

  /**
   a and b agree on their first k characters, after which a has ended while b
   goes on, or a's next character is the smaller.
   */
  predicate LexLessAt(a: string, b: string, k: int) {
    && 0 <= k <= |a| && k <= |b| && a[..k] == b[..k]
    && ((k == |a| && k < |b|) || (k < |a| && k < |b| && a[k] < b[k]))
  }

  /** The name order is the textbook lexicographic order. */
  lemma StrLessLexicographic(a: string, b: string)
    ensures StrLess(a, b) <==> exists k :: LexLessAt(a, b, k)
  {
    if StrLess(a, b) {
      var k := StrLessWitness(a, b);
    }
    if exists k :: LexLessAt(a, b, k) {
      var k :| LexLessAt(a, b, k);
      WitnessStrLess(a, b, k);
    }
  }

  /** Where a name that ranks first departs from the other. */
  lemma {:induction false} StrLessWitness(a: string, b: string) returns (k: int)
    requires StrLess(a, b)
    ensures LexLessAt(a, b, k)
  {
    if a == [] || a[0] != b[0] {
      k := 0;
    } else {
      var j := StrLessWitness(a[1..], b[1..]);
      k := j + 1;
      assert a[..k] == [a[0]] + a[1..][..j];
      assert b[..k] == [b[0]] + b[1..][..j];
    }
  }

  /** A name that departs first from the other by ending or by a smaller character ranks first. */
  lemma {:induction false} WitnessStrLess(a: string, b: string, k: int)
    requires LexLessAt(a, b, k)
    ensures StrLess(a, b)
  {
    if k > 0 {
      assert a[0] == a[..k][0] == b[..k][0] == b[0];
      assert a[1..][..k - 1] == a[..k][1..];
      assert b[1..][..k - 1] == b[..k][1..];
      WitnessStrLess(a[1..], b[1..], k - 1);
    }
  }

  lemma {:induction false} StrLessIrreflexive(a: string)
    ensures !StrLess(a, a)
  {
    if a != [] { StrLessIrreflexive(a[1..]); }
  }

  lemma {:induction false} StrLessAsymmetric(a: string, b: string)
    requires StrLess(a, b)
    ensures !StrLess(b, a)
  {
    if a != [] && b != [] && a[0] == b[0] { StrLessAsymmetric(a[1..], b[1..]); }
  }

  lemma {:induction false} StrLessTransitive(a: string, b: string, c: string)
    requires StrLess(a, b) && StrLess(b, c)
    ensures StrLess(a, c)
  {
    if a != [] && b != [] && c != [] && a[0] == b[0] == c[0] {
      StrLessTransitive(a[1..], b[1..], c[1..]);
    }
  }

  /** Two different strings are always ordered one way or the other. */
  lemma {:induction false} StrLessTotal(a: string, b: string)
    requires a != b
    ensures StrLess(a, b) || StrLess(b, a)
  {
    if a != [] && b != [] && a[0] == b[0] {
      assert a == [a[0]] + a[1..] && b == [b[0]] + b[1..];
      StrLessTotal(a[1..], b[1..]);
    }
  }

  // ---------------------------------------------------------------------------
  // Usage counter

  /** `entities.get(instanceId) || 0`: an id with no entry counts as used 0 times. */
  function GetUsages(entities: map<int, int>, instanceId: int): (r: int)
    ensures instanceId in entities ==> r == entities[instanceId]
    ensures r == 0 <==> instanceId !in entities || entities[instanceId] == 0
  {
    if instanceId in entities then entities[instanceId] else 0
  }

  /** The counter map after `registerUsage(instanceId)`. */
  function Register(entities: map<int, int>, instanceId: int): (r: map<int, int>)
    ensures GetUsages(r, instanceId) == GetUsages(entities, instanceId) + 1
    ensures forall other :: other != instanceId ==> GetUsages(r, other) == GetUsages(entities, other)
  {
    entities[instanceId := GetUsages(entities, instanceId) + 1]
  }

  /** The counter map after registering each id of `ids` in turn. */
  function RegisterAll(entities: map<int, int>, ids: seq<int>): map<int, int> {
    if ids == [] then entities else Register(RegisterAll(entities, ids[..|ids| - 1]), ids[|ids| - 1])
  }

  /**
   Starting from the empty counter, an id's usage is the number of times it was
   registered; in particular an id never registered has usage 0.
   */
  lemma {:induction false} UsageCountsRegistrations(ids: seq<int>, instanceId: int)
    ensures GetUsages(RegisterAll(map[], ids), instanceId) == multiset(ids)[instanceId]
  {
    if ids != [] {
      var n := |ids| - 1;
      UsageCountsRegistrations(ids[..n], instanceId);
      assert ids == ids[..n] + [ids[n]];
      assert multiset(ids) == multiset(ids[..n]) + multiset{ids[n]};
    }
  }

  // ---------------------------------------------------------------------------
  // Comparator

  /** The intended ranking: more uses first, among equal uses the smaller name first. */
  predicate RanksBefore(entities: map<int, int>, a: Scene, b: Scene) {
    GetUsages(entities, a.instanceId) > GetUsages(entities, b.instanceId)
    || (GetUsages(entities, a.instanceId) == GetUsages(entities, b.instanceId) && StrLess(a.name, b.name))
  }

  /**
   The comparator handed to the array sort: negative puts a first, positive puts
   b first.
   */
  function Compare(entities: map<int, int>, a: Scene, b: Scene): (c: int)
    ensures -1 <= c <= 1
  {
    if GetUsages(entities, a.instanceId) != GetUsages(entities, b.instanceId) then
      if GetUsages(entities, a.instanceId) < GetUsages(entities, b.instanceId) then 1 else -1
    else if a.name != b.name then
      if StrLess(b.name, a.name) then 1 else -1
    else 0
  }

  /**
   The comparator answers -1 exactly when a ranks before b, 1 exactly when b
   ranks before a, and 0 exactly when both usage and name are equal.
   */
  lemma CompareMeaning(entities: map<int, int>, a: Scene, b: Scene)
    ensures Compare(entities, a, b) == -1 <==> RanksBefore(entities, a, b)
    ensures Compare(entities, a, b) == 1 <==> RanksBefore(entities, b, a)
    ensures Compare(entities, a, b) == 0
            <==> GetUsages(entities, a.instanceId) == GetUsages(entities, b.instanceId) && a.name == b.name
  {
    if a.name != b.name {
      StrLessTotal(a.name, b.name);
      if StrLess(b.name, a.name) {
        StrLessAsymmetric(b.name, a.name);
      }
    } else {
      StrLessIrreflexive(a.name);
    }
  }

  lemma CompareAntisymmetric(entities: map<int, int>, a: Scene, b: Scene)
    ensures Compare(entities, a, b) == -Compare(entities, b, a)
  {
    CompareMeaning(entities, a, b);
    CompareMeaning(entities, b, a);
  }

  /** "a does not rank after b" is transitive, so the comparator is a total preorder. */
  lemma CompareTransitive(entities: map<int, int>, a: Scene, b: Scene, c: Scene)
    requires Compare(entities, a, b) <= 0 && Compare(entities, b, c) <= 0
    ensures Compare(entities, a, c) <= 0
  {
    CompareMeaning(entities, a, b);
    CompareMeaning(entities, b, c);
    CompareMeaning(entities, a, c);
    if a.name != c.name && GetUsages(entities, a.instanceId) == GetUsages(entities, c.instanceId) {
      if StrLess(a.name, b.name) && StrLess(b.name, c.name) {
        StrLessTransitive(a.name, b.name, c.name);
      }
      StrLessAsymmetric(a.name, c.name);
    }
  }

  /** The comparator as the array sort receives it: a function value over the current counts. */
  function ComparatorOf(entities: map<int, int>): Comparator {
    (a: Scene, b: Scene) => Compare(entities, a, b)
  }

  /** The usage comparator is consistent: antisymmetric and transitive. */
  lemma UsageComparatorIsPreorder(entities: map<int, int>)
    ensures IsTotalPreorder(ComparatorOf(entities))
  {
    var cmp := ComparatorOf(entities);
    forall a, b ensures cmp(a, b) == -cmp(b, a) {
      CompareAntisymmetric(entities, a, b);
    }
    forall a, b, c | cmp(a, b) <= 0 && cmp(b, c) <= 0 ensures cmp(a, c) <= 0 {
      CompareTransitive(entities, a, b, c);
    }
  }

  /**
   A list ranked by the usage comparator has non-increasing usage from front to
   back, and among equal usage the names are in non-decreasing order.
   */
  lemma RankedOrder(entities: map<int, int>, s: seq<Scene>, i: int, j: int)
    requires Ranked(ComparatorOf(entities), s)
    requires 0 <= i < j < |s|
    ensures GetUsages(entities, s[i].instanceId) >= GetUsages(entities, s[j].instanceId)
    ensures GetUsages(entities, s[i].instanceId) == GetUsages(entities, s[j].instanceId)
            ==> !StrLess(s[j].name, s[i].name)
  {
    assert ComparatorOf(entities)(s[i], s[j]) <= 0;
    CompareMeaning(entities, s[i], s[j]);
  }

  /**
   Scenes A (never used), B and C (used twice each): the two used scenes come
   first, alphabetically, then the unused one.
   */
  lemma RankingExample()
    ensures var a, b, c := Scene(1, "A"), Scene(2, "B"), Scene(3, "C");
      InsertionSort(ComparatorOf(map[2 := 2, 3 := 2]), [a, b, c]) == [b, c, a]
  {
    var a, b, c := Scene(1, "A"), Scene(2, "B"), Scene(3, "C");
    var usage := map[2 := 2, 3 := 2];
    var cmp := ComparatorOf(usage);
    assert GetUsages(usage, 1) == 0 && GetUsages(usage, 2) == 2 && GetUsages(usage, 3) == 2;
    assert cmp(a, b) == 1 && cmp(a, c) == 1;
    assert StrLess("B", "C");
    assert cmp(b, c) == -1;
    assert [a, b, c][..2] == [a, b] && [a, b][..1] == [a] && [a][..0] == [];
    assert InsertionSort(cmp, [a]) == [a];
    assert Insert(cmp, [a], b) == [b, a];
    assert Insert(cmp, [b], c) == [b, c];
    assert Insert(cmp, [b, a], c) == [b, c, a];
  }

  // ---------------------------------------------------------------------------
  // Sorting with a three-way comparator

  /** Negative: the first argument goes first; positive: the second goes first. */
  type Comparator = (Scene, Scene) -> int

  ghost predicate IsTotalPreorder(cmp: Comparator) {
    && (forall a, b :: cmp(a, b) == -cmp(b, a))
    && (forall a, b, c :: cmp(a, b) <= 0 && cmp(b, c) <= 0 ==> cmp(a, c) <= 0)
  }

  /** No element comes after a later one in the comparator's order. */
  ghost predicate Ranked(cmp: Comparator, s: seq<Scene>) {
    forall i, j :: 0 <= i < j < |s| ==> cmp(s[i], s[j]) <= 0
  }

  /** Places x behind every element of p that does not rank after it, scanning from the back. */
  function Insert(cmp: Comparator, p: seq<Scene>, x: Scene): (r: seq<Scene>)
    ensures |r| == |p| + 1
  {
    if p == [] then [x]
    else if cmp(p[|p| - 1], x) > 0 then Insert(cmp, p[..|p| - 1], x) + [p[|p| - 1]]
    else p + [x]
  }

  /** The order the in-place sort leaves an array in: each element inserted in turn. */
  function InsertionSort(cmp: Comparator, s: seq<Scene>): (r: seq<Scene>)
    ensures |r| == |s|
  {
    if s == [] then [] else Insert(cmp, InsertionSort(cmp, s[..|s| - 1]), s[|s| - 1])
  }

  /** Inserting adds exactly x and loses nothing. */
  lemma {:induction false} InsertPermutes(cmp: Comparator, p: seq<Scene>, x: Scene)
    ensures multiset(Insert(cmp, p, x)) == multiset(p) + multiset{x}
  {
    if p != [] && cmp(p[|p| - 1], x) > 0 {
      var n := |p| - 1;
      InsertPermutes(cmp, p[..n], x);
      assert p == p[..n] + [p[n]];
    }
  }

  /** The sort's output is a permutation of its input. */
  lemma {:induction false} SortPermutes(cmp: Comparator, s: seq<Scene>)
    ensures multiset(InsertionSort(cmp, s)) == multiset(s)
  {
    if s != [] {
      var n := |s| - 1;
      SortPermutes(cmp, s[..n]);
      InsertPermutes(cmp, InsertionSort(cmp, s[..n]), s[n]);
      assert s == s[..n] + [s[n]];
    }
  }

  /** An element is in Insert(p, x) exactly when it is x or in p. */
  lemma InsertMembers(cmp: Comparator, p: seq<Scene>, x: Scene, y: Scene)
    ensures y in Insert(cmp, p, x) <==> y in p || y == x
  {
    InsertPermutes(cmp, p, x);
    assert y in Insert(cmp, p, x) <==> y in multiset(Insert(cmp, p, x));
    assert y in p <==> y in multiset(p);
  }

  /** Appending an element that no element ranks after keeps a list ranked. */
  lemma AppendRanked(cmp: Comparator, q: seq<Scene>, y: Scene)
    requires Ranked(cmp, q)
    requires forall z :: z in q ==> cmp(z, y) <= 0
    ensures Ranked(cmp, q + [y])
  {
    var r := q + [y];
    forall i, j | 0 <= i < j < |r| ensures cmp(r[i], r[j]) <= 0 {
      if j < |q| {
        assert r[i] == q[i] && r[j] == q[j];
      } else {
        assert r[i] == q[i] && q[i] in q;
      }
    }
  }

  /** A prefix of a ranked list is ranked. */
  lemma PrefixRanked(cmp: Comparator, p: seq<Scene>, n: int)
    requires Ranked(cmp, p) && 0 <= n <= |p|
    ensures Ranked(cmp, p[..n])
  {
    forall i, j | 0 <= i < j < n ensures cmp(p[..n][i], p[..n][j]) <= 0 {
      assert p[..n][i] == p[i] && p[..n][j] == p[j];
    }
  }

  lemma {:induction false} InsertRanked(cmp: Comparator, p: seq<Scene>, x: Scene)
    requires IsTotalPreorder(cmp)
    requires Ranked(cmp, p)
    ensures Ranked(cmp, Insert(cmp, p, x))
  {
    if p != [] {
      var n := |p| - 1;
      var last, init := p[n], p[..n];
      if cmp(last, x) > 0 {
        PrefixRanked(cmp, p, n);
        InsertRanked(cmp, init, x);
        var q := Insert(cmp, init, x);
        forall y | y in q ensures cmp(y, last) <= 0 {
          InsertMembers(cmp, init, x, y);
          if y == x {
            assert cmp(x, last) == -cmp(last, x);
          } else {
            var k :| 0 <= k < n && init[k] == y;
            assert p[k] == y;
          }
        }
        AppendRanked(cmp, q, last);
      } else {
        forall y | y in p ensures cmp(y, x) <= 0 {
          var k :| 0 <= k <= n && p[k] == y;
          if k < n {
            assert cmp(p[k], last) <= 0;
          }
        }
        AppendRanked(cmp, p, x);
      }
    }
  }

  /** With a consistent comparator, the sort's output is ranked. */
  lemma {:induction false} SortRanked(cmp: Comparator, s: seq<Scene>)
    requires IsTotalPreorder(cmp)
    ensures Ranked(cmp, InsertionSort(cmp, s))
  {
    if s != [] {
      SortRanked(cmp, s[..|s| - 1]);
      InsertRanked(cmp, InsertionSort(cmp, s[..|s| - 1]), s[|s| - 1]);
    }
  }

  /**
   Where Insert puts x: behind p[..j] when every element of p[j..] ranks after x
   and p[j - 1] (if any) does not.
   */
  lemma {:induction false} InsertPosition(cmp: Comparator, p: seq<Scene>, j: int, x: Scene)
    requires 0 <= j <= |p|
    requires forall k :: j <= k < |p| ==> cmp(p[k], x) > 0
    requires j == 0 || cmp(p[j - 1], x) <= 0
    ensures Insert(cmp, p, x) == p[..j] + [x] + p[j..]
    decreases |p|
  {
    if j < |p| {
      var n := |p| - 1;
      assert p[..n][..j] == p[..j];
      InsertPosition(cmp, p[..n], j, x);
      assert p[..n][j..] + [p[n]] == p[j..];
    }
  }

  /** Sorting a list that is already ranked leaves it as it is. */
  lemma {:induction false} SortRankedUnchanged(cmp: Comparator, s: seq<Scene>)
    requires Ranked(cmp, s)
    ensures InsertionSort(cmp, s) == s
  {
    if s != [] {
      var n := |s| - 1;
      var init := s[..n];
      PrefixRanked(cmp, s, n);
      SortRankedUnchanged(cmp, init);
      if n > 0 {
        assert cmp(init[n - 1], s[n]) <= 0 by {
          assert init[n - 1] == s[n - 1];
        }
      }
      InsertPosition(cmp, init, n, s[n]);
      assert init[..n] + [s[n]] + init[n..] == s;
    }
  }

  /** Hence sorting twice is the same as sorting once. */
  lemma SortIdempotent(cmp: Comparator, s: seq<Scene>)
    requires IsTotalPreorder(cmp)
    ensures InsertionSort(cmp, InsertionSort(cmp, s)) == InsertionSort(cmp, s)
  {
    SortRanked(cmp, s);
    SortRankedUnchanged(cmp, InsertionSort(cmp, s));
  }

  lemma {:induction false} InsertKeepsUniqueIds(cmp: Comparator, p: seq<Scene>, x: Scene)
    requires UniqueIds(p, SceneId) && !HasId(p, x.instanceId, SceneId)
    ensures UniqueIds(Insert(cmp, p, x), SceneId)
  {
    var ids := Ids(p, SceneId);
    if p == [] {
    } else if cmp(p[|p| - 1], x) > 0 {
      var n := |p| - 1;
      var last, init := p[n], p[..n];
      assert Ids(init, SceneId) == ids[..n];
      assert ids[n] == last.instanceId;
      assert UniqueIds(init, SceneId) by {
        forall i, j | 0 <= i < j < n ensures init[i].instanceId != init[j].instanceId {
          assert init[i] == p[i] && init[j] == p[j];
        }
      }
      InsertKeepsUniqueIds(cmp, init, x);
      var q := Insert(cmp, init, x);
      forall y | y in q ensures y.instanceId != last.instanceId {
        InsertMembers(cmp, init, x, y);
        if y != x {
          var k :| 0 <= k < n && init[k] == y;
          assert p[k] == y;
        }
      }
      AppendUnique(q, last, SceneId);
    } else {
      forall y | y in p ensures y.instanceId != x.instanceId {
        var k :| 0 <= k < |p| && p[k] == y;
        assert ids[k] == y.instanceId;
      }
      AppendUnique(p, x, SceneId);
    }
  }

  /** Reordering never creates two scenes with one id. */
  lemma {:induction false} SortKeepsUniqueIds(cmp: Comparator, s: seq<Scene>)
    requires UniqueIds(s, SceneId)
    ensures UniqueIds(InsertionSort(cmp, s), SceneId)
  {
    if s != [] {
      var n := |s| - 1;
      var init := s[..n];
      assert UniqueIds(init, SceneId) by {
        forall i, j | 0 <= i < j < n ensures init[i].instanceId != init[j].instanceId {
          assert init[i] == s[i] && init[j] == s[j];
        }
      }
      SortKeepsUniqueIds(cmp, init);
      var q := InsertionSort(cmp, init);
      SortPermutes(cmp, init);
      forall k | 0 <= k < |q| ensures q[k].instanceId != s[n].instanceId {
        assert q[k] in multiset(init);
        var m :| 0 <= m < n && init[m] == q[k];
        assert s[m] == q[k];
      }
      assert !HasId(q, s[n].instanceId, SceneId);
      InsertKeepsUniqueIds(cmp, q, s[n]);
    }
  }

  /**
   The loop of one insertion step: swaps a[i] leftwards while its left
   neighbour ranks after it, and returns where it stopped.
   */
  method SiftLeft(cmp: Comparator, a: array<Scene>, i: int) returns (j: int)
    requires 0 <= i < a.Length
    modifies a
    ensures 0 <= j <= i
    ensures forall k :: 0 <= k < j ==> a[..][k] == old(a[..])[k]
    ensures a[..][j] == old(a[..])[i]
    ensures forall k :: j < k <= i ==> a[..][k] == old(a[..])[k - 1]
    ensures forall k :: i < k < a.Length ==> a[..][k] == old(a[..])[k]
    ensures forall k :: j <= k < i ==> cmp(old(a[..])[k], old(a[..])[i]) > 0
    ensures j == 0 || cmp(old(a[..])[j - 1], old(a[..])[i]) <= 0
  {
    ghost var s := a[..];
    var x := a[i];
    j := i;
    while j > 0 && cmp(a[j - 1], x) > 0
      invariant 0 <= j <= i
      invariant forall k :: 0 <= k < j ==> a[k] == s[k]
      invariant a[j] == x
      invariant forall k :: j < k <= i ==> a[k] == s[k - 1]
      invariant forall k :: i < k < a.Length ==> a[k] == s[k]
      invariant forall k :: j <= k < i ==> cmp(s[k], x) > 0
      decreases j
    {
      a[j - 1], a[j] := a[j], a[j - 1];
      j := j - 1;
    }
  }

  /**
   One step of the in-place sort: a[..i] is in sorted order; a[i] is moved left
   past every element that ranks after it. The elements after i do not move.
   */
  method InsertAt(cmp: Comparator, a: array<Scene>, i: int)
    requires 0 <= i < a.Length
    modifies a
    ensures a[..] == Insert(cmp, old(a[..i]), old(a[i])) + old(a[i + 1..])
  {
    ghost var before := a[..];
    var j := SiftLeft(cmp, a, i);
    ghost var p, x, rest := before[..i], before[i], before[i + 1..];
    InsertPosition(cmp, p, j, x);
    Spliced(a[..], p, j, x, rest);
  }

  /** A sequence that agrees element by element with p[..j] + [x] + p[j..] + rest is that sequence. */
  lemma Spliced(s: seq<Scene>, p: seq<Scene>, j: int, x: Scene, rest: seq<Scene>)
    requires 0 <= j <= |p| && |s| == |p| + 1 + |rest|
    requires forall k :: 0 <= k < j ==> s[k] == p[k]
    requires s[j] == x
    requires forall k :: j < k <= |p| ==> s[k] == p[k - 1]
    requires forall k :: |p| < k < |s| ==> s[k] == rest[k - |p| - 1]
    ensures s == p[..j] + [x] + p[j..] + rest
  {
    var t := p[..j] + [x] + p[j..] + rest;
    forall k | 0 <= k < |s| ensures s[k] == t[k] {
      if k < j {
      } else if k == j {
      } else if k <= |p| {
      } else {
      }
    }
  }

  /** Sorting one more element is inserting it into the sorted prefix. */
  lemma SortStep(cmp: Comparator, input: seq<Scene>, i: int)
    requires 0 <= i < |input|
    ensures InsertionSort(cmp, input[..i + 1]) == Insert(cmp, InsertionSort(cmp, input[..i]), input[i])
  {
    assert input[..i + 1][..i] == input[..i];
  }

  /** Sorts a in place with the comparator. */
  method SortInPlace(cmp: Comparator, a: array<Scene>)
    modifies a
    ensures a[..] == InsertionSort(cmp, old(a[..]))
  {
    ghost var input := a[..];
    var i := 0;
    while i < a.Length
      invariant 0 <= i <= a.Length
      invariant a[..] == InsertionSort(cmp, input[..i]) + input[i..]
    {
      ghost var done := InsertionSort(cmp, input[..i]);
      ghost var cur := a[..];
      assert cur[..i] == done && cur[i] == input[i] && cur[i + 1..] == input[i + 1..];
      InsertAt(cmp, a, i);
      SortStep(cmp, input, i);
      i := i + 1;
    }
    assert input[..a.Length] == input;
  }

  // ---------------------------------------------------------------------------
  // The ranker object

  class IPSODeviceUsageSorter {
    /** Activation count per instance id. */
    var entities: map<int, int>

    constructor ()
      ensures entities == map[]
    {
      entities := map[];
    }

    /** Raises this id's count by one and leaves every other count alone. */
    method RegisterUsage(instanceId: int)
      modifies this
      ensures entities == Register(old(entities), instanceId)
      ensures GetUsages(entities, instanceId) == GetUsages(old(entities), instanceId) + 1
      ensures forall other :: other != instanceId ==> GetUsages(entities, other) == GetUsages(old(entities), other)
    {
      var current := GetUsages(entities, instanceId);
      entities := entities[instanceId := current + 1];
    }

    /**
     Reorders `devices` in place by usage (descending), then name (ascending),
     and returns the same array. It changes no usage count: it may modify only
     the array.
     */
    method Sort(devices: array<Scene>) returns (sorted: array<Scene>)
      modifies devices
      ensures sorted == devices
      ensures entities == old(entities)
      ensures devices[..] == InsertionSort(ComparatorOf(entities), old(devices[..]))
      ensures multiset(devices[..]) == multiset(old(devices[..]))
      ensures Ranked(ComparatorOf(entities), devices[..])
    {
      SortInPlace(ComparatorOf(entities), devices);
      UsageComparatorIsPreorder(entities);
      SortRanked(ComparatorOf(entities), old(devices[..]));
      SortPermutes(ComparatorOf(entities), old(devices[..]));
      sorted := devices;
    }
  }
}
