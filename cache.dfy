/**
 The client's cache of the `allTodos` list and the two mutation `update`
 handlers that patch it in place of a refetch. The list query and the
 query the handlers read and write select the same root field, so they
 share one cache slot; that slot is the only state modelled here.
 */
module TodoCache {
  import opened TodoItems

  datatype Option<T> = None | Some(value: T)

  /** How a mutation request settles: with the backend's `{ name id }`, or with a network or server error. */
  datatype MutationResult = Completed(data: Item) | Failed

  /** A settled mutation: a delete of the button's `id`, or a create. */
  datatype Mutation =
    | Delete(id: Id, result: MutationResult)
    | Create(result: MutationResult)

  /**
   The slot after `m` settles. Only a completed mutation runs its handler;
   a handler whose read finds no cached list throws before writing.
   */
  function Settle(slot: Option<seq<Item>>, m: Mutation): (r: Option<seq<Item>>)
    ensures r.Some? <==> slot.Some?
    ensures m.result.Failed? ==> r == slot
    ensures slot.Some? && m.Delete? && m.result.Completed? ==>
      forall i :: 0 <= i < |r.value| ==> r.value[i].id != m.id
    ensures slot.Some? && m.Create? && m.result.Completed? ==>
      |r.value| == |slot.value| + 1 && r.value[|slot.value|] == m.result.data
  {
    match m
    case Delete(id, Completed(_)) =>
      if slot.Some? then Some(Without(slot.value, id)) else slot
    case Create(Completed(created)) =>
      if slot.Some? then Some(Appended(slot.value, created)) else slot
    case _ => slot
  }

  /**
   The slot after the mutations `ms` settle, one handler at a time in
   completion order. Handlers only patch a cached list: they never fill or
   clear the slot.
   */
  function Replay(slot: Option<seq<Item>>, ms: seq<Mutation>): (r: Option<seq<Item>>)
    ensures r.Some? <==> slot.Some?
    decreases |ms|
  {
    if ms == [] then slot else Replay(Settle(slot, ms[0]), ms[1..])
  }

  /** Successful creates of `items`, one after another. */
  function Creates(items: seq<Item>): seq<Mutation>
  {
    seq(|items|, k requires 0 <= k < |items| => Create(Completed(items[k])))
  }

  // ---------------------------------------------------------------------------
  // Properties of settled mutations

  /** Mutations that all fail leave the cached list exactly as it was. */
  lemma {:induction false} ReplayFailuresUnchanged(slot: Option<seq<Item>>, ms: seq<Mutation>)
    requires forall k :: 0 <= k < |ms| ==> ms[k].result.Failed?
    ensures Replay(slot, ms) == slot
    decreases |ms|
  {
    if ms != [] {
      ReplayFailuresUnchanged(Settle(slot, ms[0]), ms[1..]);
    }
  }

  /** A run of successful creates appends the created items in completion order. */
  lemma {:induction false} ReplayCreates(s: seq<Item>, items: seq<Item>)
    ensures Replay(Some(s), Creates(items)) == Some(s + items)
    decreases |items|
  {
    if items == [] {
      assert s + items == s;
    } else {
      var ms := Creates(items);
      assert ms[1..] == Creates(items[1..]);
      ReplayCreates(s + [items[0]], items[1..]);
      assert s + [items[0]] + items[1..] == s + items;
    }
  }

  /**
   After a run of successful creates, the list grows by the number of
   creates, and a created id that was not cached and that no other create
   returned occurs exactly once.
   */
  lemma {:induction false} ReplayCreatesOnce(s: seq<Item>, items: seq<Item>, k: nat)
    requires k < |items|
    requires CountId(s, items[k].id) == 0
    requires forall j :: 0 <= j < |items| && j != k ==> items[j].id != items[k].id
    ensures Replay(Some(s), Creates(items)).Some?
    ensures |Replay(Some(s), Creates(items)).value| == |s| + |items|
    ensures CountId(Replay(Some(s), Creates(items)).value, items[k].id) == 1
  {
    var id, pre, post := items[k].id, items[..k], items[k + 1..];
    ReplayCreates(s, items);
    CountIdConcat(s, items, id);
    CountIdAround(items, k);
    forall i | 0 <= i < |pre| ensures pre[i].id != id {
      assert pre[i] == items[i];
    }
    forall i | 0 <= i < |post| ensures post[i].id != id {
      assert post[i] == items[k + 1 + i];
    }
    CountIdZero(pre, id);
    CountIdZero(post, id);
  }

  /**
   Settling a mutation keeps ids unique, provided a create's backend-assigned
   id is not yet cached.
   */
  lemma {:induction false} SettleKeepsUnique(s: seq<Item>, m: Mutation)
    requires UniqueIds(s)
    requires m.Create? && m.result.Completed? ==> CountId(s, m.result.data.id) == 0
    ensures UniqueIds(Settle(Some(s), m).value)
  {
    match m
    case Delete(id, Completed(_)) => WithoutKeepsUnique(s, id);
    case Create(Completed(created)) => AppendedUnique(s, created);
    case _ =>
  }

  /** Two deletes that both complete leave the same list in either completion order. */
  lemma {:induction false} SettleDeletesCommute(slot: Option<seq<Item>>, a: Mutation, b: Mutation)
    requires a.Delete? && b.Delete?
    ensures Settle(Settle(slot, a), b) == Settle(Settle(slot, b), a)
  {
    if slot.Some? && a.result.Completed? && b.result.Completed? {
      WithoutCommutes(slot.value, a.id, b.id);
    }
  }

  /** A completed delete of an id that is not cached leaves the slot unchanged. */
  lemma {:induction false} SettleDeleteAbsent(slot: Option<seq<Item>>, id: Id, data: Item)
    requires slot.Some? ==> CountId(slot.value, id) == 0
    ensures Settle(slot, Delete(id, Completed(data))) == slot
  {
    if slot.Some? {
      WithoutAbsent(slot.value, id);
    }
  }

  // ---------------------------------------------------------------------------
  // The cache object

  class Cache {
    /** The cached result of the `allTodos` field; None until the list query has written it. */
    var allTodos: Option<seq<Item>>

    constructor ()
      ensures allTodos == None
    {
      allTodos := None;
    }

    /** `cache.readQuery({ query: TODOS })`; None when the list is not cached, where Apollo throws. */
    method ReadQuery() returns (r: Option<seq<Item>>)
      ensures r == allTodos
    {
      r := allTodos;
    }

    /** `cache.writeQuery({ query: TODOS, data: { allTodos: todos } })`. */
    method WriteQuery(todos: seq<Item>)
      modifies this
      ensures allTodos == Some(todos)
    {
      allTodos := Some(todos);
    }

    /** The delete mutation's `update`: read the list, drop the entries with `id`, write it back. */
    method RemoveTodoUpdate(id: Id) returns (written: bool)
      modifies this
      ensures written <==> old(allTodos).Some?
      ensures written ==> allTodos == Some(Without(old(allTodos).value, id))
      ensures !written ==> allTodos == old(allTodos)
    {
      var read := ReadQuery();
      if read.None? {
        return false;
      }
      WriteQuery(Without(read.value, id));
      written := true;
    }

    /** The create mutation's `update`: read the list, append the created item, write it back. */
    method AddTodoUpdate(created: Item) returns (written: bool)
      modifies this
      ensures written <==> old(allTodos).Some?
      ensures written ==> allTodos == Some(Appended(old(allTodos).value, created))
      ensures !written ==> allTodos == old(allTodos)
    {
      var read := ReadQuery();
      if read.None? {
        return false;
      }
      WriteQuery(Appended(read.value, created));
      written := true;
    }

    /** `deleteTodo({ variables: { id }, update })` settling with `result`. */
    method DeleteTodo(id: Id, result: MutationResult)
      modifies this
      ensures allTodos == Settle(old(allTodos), Delete(id, result))
    {
      if result.Completed? {
        var _ := RemoveTodoUpdate(id);
      }
    }

    /** `createTodo({ variables: { name } })` settling with `result`. */
    method CreateTodo(result: MutationResult)
      modifies this
      ensures allTodos == Settle(old(allTodos), Create(result))
    {
      if result.Completed? {
        var _ := AddTodoUpdate(result.data);
      }
    }
  }

  /** End-to-end sequences: creates into an empty list, a delete by id, a failed delete, a create with no list cached. */
  method Scenarios()
  {
    var cache := new Cache();
    cache.WriteQuery([]);
    var milk := Item("Buy milk", "1");
    var dog := Item("Walk dog", "2");
    cache.CreateTodo(Completed(milk));
    assert cache.allTodos == Some([milk]);
    cache.CreateTodo(Completed(dog));
    assert [milk] + [dog] == [milk, dog];
    assert cache.allTodos == Some([milk, dog]);
    cache.DeleteTodo("1", Completed(milk));
    assert [milk, dog][1..] == [dog] && [dog][1..] == [];
    assert Without([dog], "1") == [dog] + Without([], "1") == [dog];
    assert Without([milk, dog], "1") == Without([dog], "1");
    assert cache.allTodos == Some([dog]);
    cache.DeleteTodo("2", Failed);
    assert cache.allTodos == Some([dog]);
    var empty := new Cache();
    empty.CreateTodo(Completed(milk));
    assert empty.allTodos == None;
  }
}
