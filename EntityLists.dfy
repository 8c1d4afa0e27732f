/**
 The list operations the cache is built from. The service keeps its lights and
 scenes in plain lists keyed by an instance id: a delete is a `filter` on the
 id, a lookup takes the first entry with the id. Both kinds of entity share
 these operations, so they are written once over any element type together with
 the function that gives an element's id.
 */
module EntityLists {
  import opened Devices

  /** The ids of the entries, in list order. */
  function Ids<T>(s: seq<T>, idOf: T -> int): (r: seq<int>)
    ensures |r| == |s| && forall i :: 0 <= i < |s| ==> r[i] == idOf(s[i])
  {
    seq(|s|, i requires 0 <= i < |s| => idOf(s[i]))
  }

  /** `list.some(e => e.instanceId === id)` */
  predicate HasId<T>(s: seq<T>, id: int, idOf: T -> int) {
    id in Ids(s, idOf)
  }

  /** `some`: an entry with the id exists exactly when some entry carries it. */
  lemma HasIdMeaning<T>(s: seq<T>, id: int, idOf: T -> int)
    ensures HasId(s, id, idOf) <==> exists x :: x in s && idOf(x) == id
  {
    if HasId(s, id, idOf) {
      var k :| 0 <= k < |s| && Ids(s, idOf)[k] == id;
      assert s[k] in s;
    }
  }

  /** At most one entry per id. */
  predicate UniqueIds<T>(s: seq<T>, idOf: T -> int) {
    forall i, j :: 0 <= i < j < |s| ==> idOf(s[i]) != idOf(s[j])
  }

  /** r can be obtained from s by dropping entries, without reordering the rest. */
  predicate IsSubsequence<T(==)>(r: seq<T>, s: seq<T>) {
    if r == [] then true
    else if s == [] then false
    else if r[0] == s[0] then IsSubsequence(r[1..], s[1..])
    else IsSubsequence(r, s[1..])
  }

  /**
   `list.filter(e => e.instanceId !== id)`: drops every entry with the id and
   keeps the others in their order; a list without the id comes back as it
   was. RemoveCounts adds that each kept entry keeps its multiplicity.
   */
  function RemoveById<T(==,!new)>(s: seq<T>, id: int, idOf: T -> int): (r: seq<T>)
    ensures forall x :: x in r <==> x in s && idOf(x) != id
    ensures !HasId(r, id, idOf)
    ensures IsSubsequence(r, s)
    ensures !HasId(s, id, idOf) ==> r == s
  {
    if s == [] then []
    else if idOf(s[0]) == id then
      var rest := RemoveById(s[1..], id, idOf);
      assert rest != [] ==> rest[0] in rest && rest[0] != s[0];
      rest
    else
      assert !HasId(s, id, idOf) ==> !HasId(s[1..], id, idOf) by {
        if HasId(s[1..], id, idOf) {
          var k :| 0 <= k < |s[1..]| && Ids(s[1..], idOf)[k] == id;
          assert Ids(s, idOf)[k + 1] == id;
        }
      }
      [s[0]] + RemoveById(s[1..], id, idOf)
  }

  /**
   The filter keeps each entry with another id as many times as it occurs, and
   none with the id.
   */
  lemma {:induction false} RemoveCounts<T(!new)>(s: seq<T>, id: int, idOf: T -> int)
    ensures forall x :: multiset(RemoveById(s, id, idOf))[x] == if idOf(x) == id then 0 else multiset(s)[x]
  {
    if s != [] {
      RemoveCounts(s[1..], id, idOf);
      CountsAfterHead(s, RemoveById(s[1..], id, idOf), RemoveById(s, id, idOf), id, idOf);
    }
  }

  /**
   One step of the filter, counted: when `rest` keeps the tail's entries without
   the id, r keeps s's, where r is `rest` with the head in front exactly when the
   head has another id.
   */
  lemma CountsAfterHead<T>(s: seq<T>, rest: seq<T>, r: seq<T>, id: int, idOf: T -> int)
    requires s != []
    requires forall x :: multiset(rest)[x] == if idOf(x) == id then 0 else multiset(s[1..])[x]
    requires r == if idOf(s[0]) == id then rest else [s[0]] + rest
    ensures forall x :: multiset(r)[x] == if idOf(x) == id then 0 else multiset(s)[x]
  {
    assert s == [s[0]] + s[1..];
    assert multiset(s) == multiset{s[0]} + multiset(s[1..]);
    if idOf(s[0]) != id {
      assert multiset(r) == multiset{s[0]} + multiset(rest);
    }
  }

  /**
   `list.filter(e => e.instanceId === id)[0]`: the first entry carrying the id,
   or nothing when no entry does.
   */
  function FirstWithId<T(==)>(s: seq<T>, id: int, idOf: T -> int): (r: Option<T>)
    ensures r.None? <==> !HasId(s, id, idOf)
    ensures r.Some? ==> exists i :: 0 <= i < |s| && s[i] == r.value && idOf(s[i]) == id
                                    && forall j :: 0 <= j < i ==> idOf(s[j]) != id
  {
    if s == [] then None
    else if idOf(s[0]) == id then Some(s[0])
    else
      var r := FirstWithId(s[1..], id, idOf);
      assert HasId(s, id, idOf) ==> HasId(s[1..], id, idOf) by {
        if HasId(s, id, idOf) {
          var k :| 0 <= k < |s| && Ids(s, idOf)[k] == id;
          assert k != 0;
          assert Ids(s[1..], idOf)[k - 1] == id;
        }
      }
      if r.Some? then
        var i :| 0 <= i < |s[1..]| && s[1..][i] == r.value && idOf(s[1..][i]) == id
                 && forall j :: 0 <= j < i ==> idOf(s[1..][j]) != id;
        assert s[i + 1] == r.value && forall j :: 0 <= j < i + 1 ==> idOf(s[j]) != id by {
          forall j | 0 <= j < i + 1 ensures idOf(s[j]) != id {
            if j > 0 { assert s[j] == s[1..][j - 1]; }
          }
        }
        r
      else r
  }

  /** The id filter distributes over concatenation. */
  lemma {:induction false} RemoveConcat<T(!new)>(a: seq<T>, b: seq<T>, id: int, idOf: T -> int)
    ensures RemoveById(a + b, id, idOf) == RemoveById(a, id, idOf) + RemoveById(b, id, idOf)
  {
    if a == [] {
      assert a + b == b;
    } else {
      assert (a + b)[0] == a[0];
      assert (a + b)[1..] == a[1..] + b;
      RemoveConcat(a[1..], b, id, idOf);
      if idOf(a[0]) == id {
        calc {
          RemoveById(a + b, id, idOf);
          RemoveById(a[1..] + b, id, idOf);
          RemoveById(a[1..], id, idOf) + RemoveById(b, id, idOf);
          RemoveById(a, id, idOf) + RemoveById(b, id, idOf);
        }
      } else {
        calc {
          RemoveById(a + b, id, idOf);
          [a[0]] + RemoveById(a[1..] + b, id, idOf);
          [a[0]] + (RemoveById(a[1..], id, idOf) + RemoveById(b, id, idOf));
          ([a[0]] + RemoveById(a[1..], id, idOf)) + RemoveById(b, id, idOf);
          RemoveById(a, id, idOf) + RemoveById(b, id, idOf);
        }
      }
    }
  }

  /** Removing entries never creates two entries with one id. */
  lemma {:induction false} RemoveKeepsUnique<T(!new)>(s: seq<T>, id: int, idOf: T -> int)
    requires UniqueIds(s, idOf)
    ensures UniqueIds(RemoveById(s, id, idOf), idOf)
  {
    if s != [] {
      assert UniqueIds(s[1..], idOf) by {
        forall i, j | 0 <= i < j < |s[1..]| ensures idOf(s[1..][i]) != idOf(s[1..][j]) {
          assert s[1..][i] == s[i + 1] && s[1..][j] == s[j + 1];
        }
      }
      RemoveKeepsUnique(s[1..], id, idOf);
      var rest := RemoveById(s[1..], id, idOf);
      if idOf(s[0]) != id {
        forall x | x in rest ensures idOf(x) != idOf(s[0]) {
          assert x in s[1..];
          var k :| 0 <= k < |s[1..]| && s[1..][k] == x;
          assert s[k + 1] == x;
        }
        PrependUnique(s[0], rest, idOf);
      }
    }
  }

  /** Putting an entry whose id no entry has in front keeps ids unique. */
  lemma PrependUnique<T>(y: T, q: seq<T>, idOf: T -> int)
    requires UniqueIds(q, idOf)
    requires forall z :: z in q ==> idOf(z) != idOf(y)
    ensures UniqueIds([y] + q, idOf)
  {
    var r := [y] + q;
    forall i, j | 0 <= i < j < |r| ensures idOf(r[i]) != idOf(r[j]) {
      if i == 0 {
        assert r[j] == q[j - 1] && q[j - 1] in q;
      } else {
        assert r[i] == q[i - 1] && r[j] == q[j - 1];
      }
    }
  }

  /** After a removal, a lookup finds nothing for the removed id and the same entry as before for any other. */
  lemma {:induction false} FirstAfterRemove<T(!new)>(s: seq<T>, removed: int, id: int, idOf: T -> int)
    ensures FirstWithId(RemoveById(s, removed, idOf), id, idOf)
         == if id == removed then None else FirstWithId(s, id, idOf)
  {
    if s != [] {
      FirstAfterRemove(s[1..], removed, id, idOf);
    }
  }

  /** Appending an entry only matters to a lookup for its id, and only when no earlier entry has that id. */
  lemma {:induction false} FirstAfterAppend<T>(s: seq<T>, x: T, id: int, idOf: T -> int)
    ensures FirstWithId(s + [x], id, idOf)
         == if HasId(s, id, idOf) then FirstWithId(s, id, idOf)
            else if idOf(x) == id then Some(x) else None
  {
    if s != [] {
      assert (s + [x])[1..] == s[1..] + [x];
      FirstAfterAppend(s[1..], x, id, idOf);
    }
  }

  /** With unique ids, a lookup by an entry's id finds exactly that entry. */
  lemma {:induction false} FirstOfUnique<T>(s: seq<T>, i: int, idOf: T -> int)
    requires UniqueIds(s, idOf)
    requires 0 <= i < |s|
    ensures FirstWithId(s, idOf(s[i]), idOf) == Some(s[i])
  {
    if i > 0 {
      assert UniqueIds(s[1..], idOf);
      assert s[1..][i - 1] == s[i];
      FirstOfUnique(s[1..], i - 1, idOf);
    }
  }

  /** Appending an entry whose id no entry has keeps ids unique. */
  lemma AppendUnique<T>(q: seq<T>, y: T, idOf: T -> int)
    requires UniqueIds(q, idOf)
    requires forall z :: z in q ==> idOf(z) != idOf(y)
    ensures UniqueIds(q + [y], idOf)
  {
    var r := q + [y];
    forall i, j | 0 <= i < j < |r| ensures idOf(r[i]) != idOf(r[j]) {
      if j < |q| {
        assert r[i] == q[i] && r[j] == q[j];
      } else {
        assert r[i] == q[i] && q[i] in q;
      }
    }
  }
}
