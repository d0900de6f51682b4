/**
 Assets inside one transaction, after SqlAlchemyAssetRepository in app/db/repositories.py. With
 autoflush off (app/db/session.py) new assets stay pending until commit and queries do not see
 them, so every lookup tries the pending ones first.
 */
module AssetSession {
  import opened Common
  import opened Ledger

  datatype AssetRow = AssetRow(key: Key, quantity: nat)

  /** Rows as a plain map. */
  function ToMap(rows: seq<AssetRow>): Holdings {
    if rows == [] then map[] else ToMap(rows[..|rows| - 1])[rows[|rows| - 1].key := rows[|rows| - 1].quantity]
  }

  ghost predicate DistinctKeys(rows: seq<AssetRow>) {
    forall i, j :: 0 <= i < j < |rows| ==> rows[i].key != rows[j].key
  }

  ghost predicate PositiveRows(rows: seq<AssetRow>) {
    forall i :: 0 <= i < |rows| ==> rows[i].quantity >= 1
  }

  function IndexOf(rows: seq<AssetRow>, key: Key): (r: Option<nat>)
    ensures r.Some? ==> r.value < |rows| && rows[r.value].key == key
    ensures r.None? ==> forall i :: 0 <= i < |rows| ==> rows[i].key != key
  {
    if rows == [] then None
    else if rows[|rows| - 1].key == key then Some(|rows| - 1)
    else IndexOf(rows[..|rows| - 1], key)
  }

  function Kept(rows: seq<AssetRow>, deleted: set<Key>): seq<AssetRow> {
    if rows == [] then []
    else
      var before, last := Kept(rows[..|rows| - 1], deleted), rows[|rows| - 1];
      if last.key in deleted then before else before + [last]
  }

  // ----- Facts about rows as maps -----

  lemma {:induction false} MapHasKey(rows: seq<AssetRow>, key: Key)
    ensures key in ToMap(rows) <==> IndexOf(rows, key).Some?
    ensures key in ToMap(rows) ==> ToMap(rows)[key] == rows[IndexOf(rows, key).value].quantity
  {
    if rows != [] {
      MapHasKey(rows[..|rows| - 1], key);
    }
  }

  lemma {:induction false} MapAppend(rows: seq<AssetRow>, row: AssetRow)
    ensures ToMap(rows + [row]) == ToMap(rows)[row.key := row.quantity]
  {
  }

  lemma {:induction false} MapConcat(a: seq<AssetRow>, b: seq<AssetRow>)
    ensures ToMap(a + b) == ToMap(a) + ToMap(b)
  {
    if b == [] {
      assert a + b == a;
    } else {
      assert (a + b)[..|a + b| - 1] == a + b[..|b| - 1];
      MapConcat(a, b[..|b| - 1]);
    }
  }

  lemma {:induction false} MapUpdate(rows: seq<AssetRow>, i: nat, quantity: nat)
    requires DistinctKeys(rows) && i < |rows|
    ensures ToMap(rows[i := AssetRow(rows[i].key, quantity)]) == ToMap(rows)[rows[i].key := quantity]
  {
    var updated := rows[i := AssetRow(rows[i].key, quantity)];
    var n := |rows| - 1;
    if i == n {
      assert updated[..n] == rows[..n];
    } else {
      MapUpdate(rows[..n], i, quantity);
      assert updated[..n] == rows[..n][i := AssetRow(rows[i].key, quantity)];
    }
  }

  lemma {:induction false} MapKept(rows: seq<AssetRow>, deleted: set<Key>)
    ensures ToMap(Kept(rows, deleted)) == ToMap(rows) - deleted
  {
    if rows != [] {
      MapKept(rows[..|rows| - 1], deleted);
      if rows[|rows| - 1].key !in deleted {
        MapAppend(Kept(rows[..|rows| - 1], deleted), rows[|rows| - 1]);
      }
    }
  }

  lemma {:induction false} KeptMembers(rows: seq<AssetRow>, deleted: set<Key>)
    ensures forall r :: r in Kept(rows, deleted) <==> r in rows && r.key !in deleted
  {
    if rows != [] {
      KeptMembers(rows[..|rows| - 1], deleted);
      assert rows == rows[..|rows| - 1] + [rows[|rows| - 1]];
    }
  }

  lemma {:induction false} KeptDistinct(rows: seq<AssetRow>, deleted: set<Key>)
    requires DistinctKeys(rows)
    ensures DistinctKeys(Kept(rows, deleted))
  {
    if rows != [] {
      var before, last := rows[..|rows| - 1], rows[|rows| - 1];
      KeptDistinct(before, deleted);
      KeptMembers(before, deleted);
      forall i | 0 <= i < |Kept(before, deleted)|
        ensures Kept(before, deleted)[i].key != last.key
      {
        assert Kept(before, deleted)[i] in before;
      }
    }
  }

  lemma {:induction false} AppendDistinct(rows: seq<AssetRow>, row: AssetRow)
    requires DistinctKeys(rows) && IndexOf(rows, row.key).None?
    ensures DistinctKeys(rows + [row])
  {
  }

  lemma {:induction false} IndexInConcat(a: seq<AssetRow>, b: seq<AssetRow>, key: Key)
    ensures IndexOf(a + b, key).None? <==> IndexOf(a, key).None? && IndexOf(b, key).None?
  {
    MapHasKey(a + b, key);
    MapHasKey(a, key);
    MapHasKey(b, key);
    MapConcat(a, b);
  }

  datatype Taken = Missing | NotPersisted | Left(remaining: nat)

  // ----- The session -----

  class Assets {
    /** Rows of the table as this session sees and changes them, the new ones, and those marked for deletion. */
    var rows: seq<AssetRow>
    var pending: seq<AssetRow>
    var deleted: set<Key>

    ghost predicate Valid()
      reads this
    {
      DistinctKeys(rows + pending) && PositiveRows(rows + pending)
    }

    constructor ()
      ensures Valid() && rows == [] && pending == [] && deleted == {}
    {
      rows, pending, deleted := [], [], {};
    }

    /** What the user owns if the transaction commits now. */
    function Value(): Holdings
      reads this
    {
      ToMap(rows) - deleted + ToMap(pending)
    }

    method Begin(stored: seq<AssetRow>)
      requires DistinctKeys(stored) && PositiveRows(stored)
      modifies this
      ensures Valid() && rows == stored && pending == [] && deleted == {} && Value() == ToMap(stored)
    {
      rows, pending, deleted := stored, [], {};
      assert stored + [] == stored;
    }

    method GetPendingAsset(key: Key) returns (r: Option<nat>)
      requires Valid()
      ensures r == IndexOf(pending, key)
    {
      for i := 0 to |pending|
        invariant forall k :: 0 <= k < i ==> pending[k].key != key
      {
        if pending[i].key == key {
          PendingIndex(rows, pending, i);
          return Some(i);
        }
      }
      r := None;
    }

    /** The quantity of an asset, if there is one: pending first, then the table. */
    method GetAsset(key: Key) returns (r: Option<nat>)
      requires Valid() && key !in deleted
      ensures r == if key in Value() then Some(Value()[key]) else None
    {
      MapHasKey(pending, key);
      MapHasKey(rows, key);
      var index := GetPendingAsset(key);
      if index.Some? {
        return Some(pending[index.value].quantity);
      }
      index := IndexOf(rows, key);
      r := if index.Some? then Some(rows[index.value].quantity) else None;
    }

    /** Refuses a quantity that is not positive. */
    method AddItemQuantity(user: int, item: string, quantity: int) returns (total: Option<nat>)
      requires Valid() && ItemKey(user, item) !in deleted
      modifies this`rows, this`pending
      ensures Valid()
      ensures total.Some? <==> quantity > 0
      ensures quantity <= 0 ==> rows == old(rows) && pending == old(pending)
      ensures quantity > 0 ==> Value() == AddItem(old(Value()), ItemKey(user, item), quantity)
                               && total.value == Quantity(old(Value()), ItemKey(user, item)) + quantity
    {
      if quantity <= 0 {
        return None;
      }
      var key := ItemKey(user, item);
      var existing := GetAsset(key);
      if existing.Some? {
        SetQuantity(key, existing.value + quantity);
        return Some(existing.value + quantity);
      }
      AddPending(AssetRow(key, quantity));
      total := Some(quantity);
    }

    /** Changes the asset object the lookup found. */
    method SetQuantity(key: Key, quantity: nat)
      requires Valid() && key !in deleted && key in Value() && quantity >= 1
      modifies this`rows, this`pending
      ensures Valid() && Value() == old(Value())[key := quantity]
    {
      MapHasKey(pending, key);
      MapHasKey(rows, key);
      hide ToMap;
      var index := GetPendingAsset(key);
      if index.Some? {
        var i := index.value;
        PartsDistinct(rows, pending);
        MapUpdate(pending, i, quantity);
        UpdateInConcat(rows, pending, |rows| + i, quantity);
        pending := pending[i := AssetRow(key, quantity)];
      } else {
        var i := IndexOf(rows, key).value;
        PartsDistinct(rows, pending);
        MapUpdate(rows, i, quantity);
        UpdateInConcat(rows, pending, i, quantity);
        rows := rows[i := AssetRow(key, quantity)];
      }
    }

    method AddPending(row: AssetRow)
      requires Valid() && row.key !in deleted && row.key !in Value() && row.quantity >= 1
      modifies this`pending
      ensures Valid() && Value() == old(Value())[row.key := row.quantity]
    {
      MapHasKey(pending, row.key);
      MapHasKey(rows, row.key);
      MapAppend(pending, row);
      hide ToMap;
      IndexInConcat(rows, pending, row.key);
      AppendDistinct(rows + pending, row);
      assert rows + pending + [row] == rows + (pending + [row]);
      pending := pending + [row];
    }

    method GrantCat(user: int, cat: string)
      requires Valid() && CatKey(user, cat) !in deleted
      modifies this`pending
      ensures Valid()
      ensures Value() == if CatKey(user, cat) in old(Value()) then old(Value())
              else old(Value())[CatKey(user, cat) := 1]
    {
      var existing := GetAsset(CatKey(user, cat));
      if existing.None? {
        AddPending(AssetRow(CatKey(user, cat), 1));
      }
    }

    /** Takes one away; the last one is deleted, which works only for an asset that is already in the table. */
    method ConsumeItemQuantity(user: int, item: string) returns (r: Taken)
      requires Valid() && ItemKey(user, item) !in deleted
      modifies this
      ensures Valid()
      ensures r.Missing? <==> ItemKey(user, item) !in old(Value())
      ensures r.NotPersisted?
              <==> IndexOf(old(pending), ItemKey(user, item)).Some? && ItemKey(user, item) in old(Value())
                                   && old(Value())[ItemKey(user, item)] == 1
      ensures !r.Left? ==> rows == old(rows) && pending == old(pending) && deleted == old(deleted)
      ensures r.Left? ==> ItemKey(user, item) in old(Value()) && old(Value())[ItemKey(user, item)] >= 1
                          && Value() == TakeItem(old(Value()), ItemKey(user, item))
                          && r.remaining == old(Value())[ItemKey(user, item)] - 1
    {
      var key := ItemKey(user, item);
      MapHasKey(pending, key);
      MapHasKey(rows, key);
      PositiveValue(rows, pending, deleted, key);
      hide ToMap;
      var existing := GetAsset(key);
      if existing.None? {
        return Missing;
      }
      if existing.value == 1 {
        if IndexOf(pending, key).Some? {
          return NotPersisted;
        }
        deleted := deleted + {key};
        return Left(0);
      }
      SetQuantity(key, existing.value - 1);
      r := Left(existing.value - 1);
    }

    /** What the commit writes: never two rows for one user and item or one user and cat. */
    method Flush()
      requires Valid()
      modifies this
      ensures Valid() && pending == [] && deleted == {}
      ensures DistinctKeys(rows) && PositiveRows(rows) && ToMap(rows) == old(Value()) == Value()
    {
      var kept := Kept(rows, deleted);
      KeptIsDistinct(rows, pending, deleted);
      MapKept(rows, deleted);
      MapConcat(kept, pending);
      hide ToMap;
      rows, pending, deleted := kept + pending, [], {};
      assert rows + [] == rows;
      assert ToMap([]) == map[] by {
        EmptyMap();
      }
    }
  }

  lemma {:induction false} EmptyMap()
    ensures ToMap([]) == map[]
  {
  }

  lemma {:induction false} PartsDistinct(a: seq<AssetRow>, b: seq<AssetRow>)
    requires DistinctKeys(a + b)
    ensures DistinctKeys(a) && DistinctKeys(b)
  {
    assert forall i :: 0 <= i < |a| ==> a[i] == (a + b)[i];
    assert forall i :: 0 <= i < |b| ==> b[i] == (a + b)[|a| + i];
  }

  lemma {:induction false} PendingIndex(a: seq<AssetRow>, b: seq<AssetRow>, i: nat)
    requires DistinctKeys(a + b) && i < |b|
    ensures IndexOf(b, b[i].key) == Some(i)
  {
    PartsDistinct(a, b);
  }

  lemma {:induction false} UpdateInConcat(a: seq<AssetRow>, b: seq<AssetRow>, i: nat, quantity: nat)
    requires DistinctKeys(a + b) && PositiveRows(a + b) && i < |a + b| && quantity >= 1
    ensures var row := AssetRow((a + b)[i].key, quantity);
            if i < |a| then DistinctKeys(a[i := row] + b) && PositiveRows(a[i := row] + b)
            else DistinctKeys(a + b[i - |a| := row]) && PositiveRows(a + b[i - |a| := row])
  {
    var row := AssetRow((a + b)[i].key, quantity);
    var updated := (a + b)[i := row];
    assert DistinctKeys(updated) && PositiveRows(updated);
    if i < |a| {
      assert a[i := row] + b == updated;
    } else {
      assert a + b[i - |a| := row] == updated;
    }
  }

  lemma {:induction false} PositiveValue(a: seq<AssetRow>, b: seq<AssetRow>, deleted: set<Key>, key: Key)
    requires PositiveRows(a + b)
    ensures key in ToMap(a) ==> ToMap(a)[key] >= 1
    ensures key in ToMap(b) ==> ToMap(b)[key] >= 1
  {
    MapHasKey(a, key);
    MapHasKey(b, key);
    assert forall i :: 0 <= i < |a| ==> a[i] == (a + b)[i];
    assert forall i :: 0 <= i < |b| ==> b[i] == (a + b)[|a| + i];
  }

  lemma {:induction false} KeptIsDistinct(a: seq<AssetRow>, b: seq<AssetRow>, deleted: set<Key>)
    requires DistinctKeys(a + b) && PositiveRows(a + b)
    ensures DistinctKeys(Kept(a, deleted) + b) && PositiveRows(Kept(a, deleted) + b)
  {
    var kept := Kept(a, deleted);
    PartsDistinct(a, b);
    KeptDistinct(a, deleted);
    KeptMembers(a, deleted);
    hide Kept;
    forall i | 0 <= i < |kept|
      ensures kept[i].quantity >= 1
      ensures forall j :: 0 <= j < |b| ==> b[j].key != kept[i].key
    {
      assert kept[i] in a;
      var k :| 0 <= k < |a| && a[k] == kept[i];
      assert (a + b)[k] == a[k];
      forall j | 0 <= j < |b|
        ensures b[j].key != kept[i].key
      {
        assert (a + b)[|a| + j] == b[j];
      }
    }
    assert forall i :: 0 <= i < |b| ==> b[i] == (a + b)[|a| + i];
  }
}
