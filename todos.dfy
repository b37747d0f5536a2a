/**
 The to-do items the client caches, and the two list computations its
 mutation handlers apply to the cached list: removing every entry with a
 given id (after a delete) and appending the item the backend created
 (after a create).
 */
module TodoItems {

  /** A GraphQL `ID`: an opaque string assigned by the backend. */
  type Id = string

  /** The selection `{ name id }` shared by the list query and both mutations. */
  datatype Item = Item(name: string, id: Id)

  /** The number of entries of `s` whose id is `id`. */
  function CountId(s: seq<Item>, id: Id): (n: nat)
    ensures n <= |s|
  {
    if s == [] then 0
    else (if s[0].id == id then 1 else 0) + CountId(s[1..], id)
  }

  /** No two entries of `s` share an id. */
  predicate UniqueIds(s: seq<Item>)
  {
    forall i, j :: 0 <= i < j < |s| ==> s[i].id != s[j].id
  }

  /** `r` is obtained from `s` by dropping some of its entries, keeping the rest in order. */
  ghost predicate IsSubsequence(r: seq<Item>, s: seq<Item>)
    decreases |s|
  {
    r == [] ||
    (s != [] && ((r[0] == s[0] && IsSubsequence(r[1..], s[1..])) || IsSubsequence(r, s[1..])))
  }

  /** The delete handler's list: every entry whose id differs from `id`. */
  function Without(s: seq<Item>, id: Id): (r: seq<Item>)
    ensures |r| == |s| - CountId(s, id)
    ensures forall i :: 0 <= i < |r| ==> r[i].id != id
  {
    if s == [] then []
    else if s[0].id == id then Without(s[1..], id)
    else [s[0]] + Without(s[1..], id)
  }

  /** The create handler's list: the cached list with the created item last. */
  function Appended(s: seq<Item>, created: Item): (r: seq<Item>)
    ensures |r| == |s| + 1
    ensures r[..|s|] == s && r[|s|] == created
  {
    s + [created]
  }

  // ---------------------------------------------------------------------------
  // Counting ids

  lemma {:induction false} CountIdConcat(a: seq<Item>, b: seq<Item>, id: Id)
    ensures CountId(a + b, id) == CountId(a, id) + CountId(b, id)
  {
    if a == [] {
      assert a + b == b;
    } else {
      assert (a + b)[1..] == a[1..] + b;
      CountIdConcat(a[1..], b, id);
    }
  }

  /** An id has count zero exactly when no entry carries it. */
  lemma {:induction false} CountIdZero(s: seq<Item>, id: Id)
    ensures CountId(s, id) == 0 <==> forall i :: 0 <= i < |s| ==> s[i].id != id
  {
    if s != [] {
      CountIdZero(s[1..], id);
      assert forall i :: 1 <= i < |s| ==> s[i] == s[1..][i - 1];
    }
  }

  /** In a list with unique ids, no entry before or after position `k` carries its id. */
  lemma {:induction false} OthersHaveOtherIds(s: seq<Item>, k: nat)
    requires UniqueIds(s) && k < |s|
    ensures CountId(s[..k], s[k].id) == 0 && CountId(s[k + 1..], s[k].id) == 0
  {
    var pre, post := s[..k], s[k + 1..];
    forall i | 0 <= i < |pre| ensures pre[i].id != s[k].id {
      assert pre[i] == s[i];
    }
    forall i | 0 <= i < |post| ensures post[i].id != s[k].id {
      assert post[i] == s[k + 1 + i];
    }
    CountIdZero(pre, s[k].id);
    CountIdZero(post, s[k].id);
  }

  /** The count of the id at position `k` splits around that position. */
  lemma {:induction false} CountIdAround(s: seq<Item>, k: nat)
    requires k < |s|
    ensures CountId(s, s[k].id) == CountId(s[..k], s[k].id) + 1 + CountId(s[k + 1..], s[k].id)
  {
    var id := s[k].id;
    assert s[..k] + s[k..] == s;
    CountIdConcat(s[..k], s[k..], id);
    assert s[k..][0] == s[k] && s[k..][1..] == s[k + 1..];
  }

  // ---------------------------------------------------------------------------
  // Delete: `allTodos.filter(({id: itemId}) => itemId !== id)`

  /** The surviving entries keep their relative order. */
  lemma {:induction false} WithoutKeepsOrder(s: seq<Item>, id: Id)
    ensures IsSubsequence(Without(s, id), s)
  {
    if s != [] {
      WithoutKeepsOrder(s[1..], id);
      if s[0].id != id {
        var r := Without(s, id);
        assert r[0] == s[0] && r[1..] == Without(s[1..], id);
      }
    }
  }

  /** An item survives the filter iff it was cached with a different id. */
  lemma {:induction false} WithoutMembers(s: seq<Item>, id: Id, x: Item)
    ensures x in Without(s, id) <==> x in s && x.id != id
  {
    if s != [] {
      WithoutMembers(s[1..], id, x);
      assert s == [s[0]] + s[1..];
    }
  }

  /** Every id other than `id` keeps its count; `id` itself is gone. */
  lemma {:induction false} WithoutCount(s: seq<Item>, id: Id, other: Id)
    ensures CountId(Without(s, id), other) == if other == id then 0 else CountId(s, other)
  {
    if s != [] {
      WithoutCount(s[1..], id, other);
      if s[0].id != id {
        var w := Without(s[1..], id);
        assert ([s[0]] + w)[1..] == w;
      }
    }
  }

  /** Each item occurs as often as before, unless it carries the deleted id. */
  lemma {:induction false} WithoutMultiplicity(s: seq<Item>, id: Id, x: Item)
    ensures multiset(Without(s, id))[x] == if x.id == id then 0 else multiset(s)[x]
  {
    if s != [] {
      WithoutMultiplicity(s[1..], id, x);
      var w := Without(s[1..], id);
      assert s == [s[0]] + s[1..];
      assert multiset(s) == multiset{s[0]} + multiset(s[1..]);
      if s[0].id != id {
        assert Without(s, id) == [s[0]] + w;
        assert multiset([s[0]] + w) == multiset{s[0]} + multiset(w);
      }
    }
  }

  /** A subsequence that avoids `id` is no longer than the filtered list. */
  lemma {:induction false} AvoidingSubsequenceBound(r: seq<Item>, s: seq<Item>, id: Id)
    requires IsSubsequence(r, s)
    requires forall i :: 0 <= i < |r| ==> r[i].id != id
    ensures |r| <= |s| - CountId(s, id)
    decreases |s|
  {
    if r != [] {
      if r[0] == s[0] && IsSubsequence(r[1..], s[1..]) {
        AvoidingSubsequenceBound(r[1..], s[1..], id);
      } else {
        AvoidingSubsequenceBound(r, s[1..], id);
      }
    }
  }

  /**
   The filtered list is the only subsequence of `s` that avoids `id` and
   drops nothing else: the delete handler removes exactly the entries with
   that id and keeps all others, in order.
   */
  lemma {:induction false} WithoutIsLargestAvoidingSubsequence(r: seq<Item>, s: seq<Item>, id: Id)
    requires IsSubsequence(r, s)
    requires forall i :: 0 <= i < |r| ==> r[i].id != id
    requires |r| == |s| - CountId(s, id)
    ensures r == Without(s, id)
    decreases |s|
  {
    if r == [] {
      assert |Without(s, id)| == 0;
    } else if r[0] == s[0] && IsSubsequence(r[1..], s[1..]) {
      WithoutIsLargestAvoidingSubsequence(r[1..], s[1..], id);
    } else {
      AvoidingSubsequenceBound(r, s[1..], id);
      WithoutIsLargestAvoidingSubsequence(r, s[1..], id);
    }
  }

  /** Deleting an id that is not cached changes nothing, and only then. */
  lemma {:induction false} WithoutAbsent(s: seq<Item>, id: Id)
    ensures Without(s, id) == s <==> CountId(s, id) == 0
  {
    if s != [] && CountId(s, id) == 0 {
      WithoutAbsent(s[1..], id);
      assert s == [s[0]] + s[1..];
    }
  }

  /** Deleting the same id twice is the same as deleting it once. */
  lemma {:induction false} WithoutIdempotent(s: seq<Item>, id: Id)
    ensures Without(Without(s, id), id) == Without(s, id)
  {
    CountIdZero(Without(s, id), id);
    WithoutAbsent(Without(s, id), id);
  }

  /** Filtering distributes over concatenation. */
  lemma {:induction false} WithoutConcat(a: seq<Item>, b: seq<Item>, id: Id)
    ensures Without(a + b, id) == Without(a, id) + Without(b, id)
  {
    if a == [] {
      assert a + b == b;
    } else {
      var t := a + b;
      assert t[0] == a[0] && t[1..] == a[1..] + b;
      WithoutConcat(a[1..], b, id);
      if a[0].id != id {
        calc {
          Without(t, id);
          [a[0]] + Without(a[1..] + b, id);
          [a[0]] + (Without(a[1..], id) + Without(b, id));
          ([a[0]] + Without(a[1..], id)) + Without(b, id);
        }
      }
    }
  }

  /** Two deletes give the same list whichever handler runs first. */
  lemma {:induction false} WithoutCommutes(s: seq<Item>, a: Id, b: Id)
    ensures Without(Without(s, a), b) == Without(Without(s, b), a)
  {
    if s != [] {
      WithoutCommutes(s[1..], a, b);
      var wa, wb := Without(s[1..], a), Without(s[1..], b);
      if s[0].id != a {
        assert ([s[0]] + wa)[1..] == wa;
      }
      if s[0].id != b {
        assert ([s[0]] + wb)[1..] == wb;
      }
    }
  }

  /** Filtering out the id at position `k` splits around that position. */
  lemma {:induction false} WithoutAround(s: seq<Item>, k: nat)
    requires k < |s|
    ensures Without(s, s[k].id) == Without(s[..k], s[k].id) + Without(s[k + 1..], s[k].id)
  {
    var id := s[k].id;
    assert s[..k] + s[k..] == s;
    WithoutConcat(s[..k], s[k..], id);
    assert s[k..][0] == s[k] && s[k..][1..] == s[k + 1..];
  }

  /** With unique ids, deleting an entry's id removes just that entry. */
  lemma {:induction false} WithoutUnique(s: seq<Item>, k: nat)
    requires UniqueIds(s) && k < |s|
    ensures Without(s, s[k].id) == s[..k] + s[k + 1..]
  {
    WithoutAround(s, k);
    OthersHaveOtherIds(s, k);
    WithoutAbsent(s[..k], s[k].id);
    WithoutAbsent(s[k + 1..], s[k].id);
  }

  /** Deleting keeps ids unique. */
  lemma {:induction false} WithoutKeepsUnique(s: seq<Item>, id: Id)
    requires UniqueIds(s)
    ensures UniqueIds(Without(s, id))
  {
    if s != [] {
      var tail := s[1..];
      assert UniqueIds(tail) by {
        forall i, j | 0 <= i < j < |tail| ensures tail[i].id != tail[j].id {
          assert tail[i] == s[i + 1] && tail[j] == s[j + 1];
        }
      }
      WithoutKeepsUnique(tail, id);
      if s[0].id != id {
        var w := Without(tail, id);
        forall j | 0 <= j < |w| ensures w[j].id != s[0].id {
          WithoutMembers(tail, id, w[j]);
          assert w[j] in tail;
          var m :| 0 <= m < |tail| && tail[m] == w[j];
          assert s[m + 1] == w[j];
        }
        var r := [s[0]] + w;
        forall i, j | 0 <= i < j < |r| ensures r[i].id != r[j].id {
          assert r[j] == w[j - 1];
          if i > 0 {
            assert r[i] == w[i - 1];
          }
        }
      }
    }
  }

  // ---------------------------------------------------------------------------
  // Create: `allTodos.concat([createTodo])`

  /** Appending adds one occurrence of the created id and none of any other. */
  lemma {:induction false} AppendedCount(s: seq<Item>, created: Item, id: Id)
    ensures CountId(Appended(s, created), id) == CountId(s, id) + (if created.id == id then 1 else 0)
  {
    CountIdConcat(s, [created], id);
    assert [created][1..] == [];
  }

  /**
   The create handler does not check for an existing id: the result has
   unique ids exactly when the list had and the created id was new.
   */
  lemma {:induction false} AppendedUnique(s: seq<Item>, created: Item)
    ensures UniqueIds(Appended(s, created)) <==> UniqueIds(s) && CountId(s, created.id) == 0
  {
    var r := Appended(s, created);
    assert r == s + [created];
    CountIdZero(s, created.id);
    if UniqueIds(r) {
      forall i, j | 0 <= i < j < |s| ensures s[i].id != s[j].id {
        assert r[i] == s[i] && r[j] == s[j];
      }
      forall i | 0 <= i < |s| ensures s[i].id != created.id {
        assert r[i] == s[i] && r[|s|] == created;
      }
    }
    if UniqueIds(s) && CountId(s, created.id) == 0 {
      forall i, j | 0 <= i < j < |r| ensures r[i].id != r[j].id {
        assert r[i] == s[i];
        if j < |s| {
          assert r[j] == s[j];
        }
      }
    }
  }

  /** An id that is already cached occurs twice after the create handler. */
  lemma {:induction false} AppendedDuplicate(s: seq<Item>, created: Item)
    requires CountId(s, created.id) > 0
    ensures CountId(Appended(s, created), created.id) >= 2
    ensures !UniqueIds(Appended(s, created))
  {
    AppendedCount(s, created, created.id);
    AppendedUnique(s, created);
  }

  /** Deleting a freshly created item restores the list from before the create. */
  lemma {:induction false} DeleteUndoesCreate(s: seq<Item>, created: Item)
    requires CountId(s, created.id) == 0
    ensures Without(Appended(s, created), created.id) == s
  {
    WithoutConcat(s, [created], created.id);
    WithoutAbsent(s, created.id);
    assert [created][1..] == [];
  }
}
