/** Furniture in rooms, after app/modules/housing/service.py and the starter layout of app/modules/game/catalog.py. */
module Housing {
  import opened Common
  import opened Grid

  datatype Size = Size(width: nat, height: nat)

  /** A catalogue entry; items that are not furniture, and furniture without a size, are not bound to the grid. */
  datatype Item = Item(isFurniture: bool, size: Option<Size>)

  type Catalog = map<string, Item>

  datatype Position = Position(x: real, y: real, z: real)

  datatype Placed = Placed(publicId: int, user: int, item: string, at: Position)

  /** The rows: known users, those with their starter pack, placed objects in insertion order, owned quantities. */
  datatype State = State(
    users: set<int>, started: set<int>, placed: seq<Placed>, owned: map<(int, string), nat>)

  const EMPTY := State({}, {}, [], map[])

  datatype Reply =
    | UserNotFound
    | ItemNotFound
    | NotFurniture
    | IdempotencyConflict
    | NotOwned
    | LimitExceeded
    | OutsideRoom
    | Occupied
    | PlacementNotFound
    | DuplicateId
    | AlreadyStarted
    | Done
    | Replayed

  datatype Event =
    | Register(user: int)
    | Bootstrap(user: int, ids: seq<int>)
    | Acquire(user: int, item: string, quantity: nat)
    | Place(user: int, item: string, at: Position, publicId: Option<int>, generated: int)
    | Move(user: int, placementId: int, at: Position)
    | Remove(user: int, placementId: int)

  /** The integer part, as Python's int(). */
  function Truncate(r: real): int {
    if r >= 0.0 then r.Floor else -((-r).Floor)
  }

  /** The rectangle an object takes, for items with a size: turned by a quarter when z is 1. */
  function RectOf(c: Catalog, item: string, at: Position): Option<Rect> {
    if item !in c || c[item].size.None? then None
    else
      var size := c[item].size.value;
      if Truncate(at.z) == 1 then Some(Rect(at.x, at.y, size.height, size.width))
      else Some(Rect(at.x, at.y, size.width, size.height))
  }

  function PlacedRect(c: Catalog, p: Placed): Option<Rect> {
    RectOf(c, p.item, p.at)
  }

  predicate WholeCoordinates(at: Position) {
    IsWhole(at.x) && IsWhole(at.y) && (at.z == 0.0 || at.z == 1.0)
  }

  // ----- Is the place free? -----

  function PlacedBy(placed: seq<Placed>, user: int): seq<Placed> {
    if placed == [] then []
    else if placed[0].user == user then [placed[0]] + PlacedBy(placed[1..], user)
    else PlacedBy(placed[1..], user)
  }

  /** The first trouble met going through the user's objects in order. */
  function FirstTrouble(c: Catalog, others: seq<Placed>, r: Rect, excluded: Option<int>): Option<Reply> {
    if others == [] then None
    else if excluded == Some(others[0].publicId) then FirstTrouble(c, others[1..], r, excluded)
    else if others[0].item !in c then Some(ItemNotFound)
    else if PlacedRect(c, others[0]).None? then FirstTrouble(c, others[1..], r, excluded)
    else if Overlaps(r, PlacedRect(c, others[0]).value) then Some(Occupied)
    else FirstTrouble(c, others[1..], r, excluded)
  }

  function PlacementTrouble(c: Catalog, others: seq<Placed>, item: string, at: Position,
                            excluded: Option<int>): Option<Reply> {
    var r := RectOf(c, item, at);
    if r.None? then None
    else if !WholeCoordinates(at) || !InsideRoom(r.value) then Some(OutsideRoom)
    else FirstTrouble(c, others, r.value, excluded)
  }

  method EnsurePlacementFree(c: Catalog, others: seq<Placed>, item: string, at: Position, excluded: Option<int>)
    returns (trouble: Option<Reply>)
    ensures trouble == PlacementTrouble(c, others, item, at, excluded)
  {
    if item !in c || c[item].size.None? {
      return None;
    }
    if !IsWhole(at.x) || !IsWhole(at.y) || !(at.z == 0.0 || at.z == 1.0) {
      return Some(OutsideRoom);
    }
    var width, height := c[item].size.value.width, c[item].size.value.height;
    if at.z == 1.0 {
      width, height := height, width;
    }
    var r := Rect(at.x, at.y, width, height);
    if !InsideRoom(r) {
      return Some(OutsideRoom);
    }
    assert RectOf(c, item, at) == Some(r);
    hide Overlaps, InsideRoom;
    for i := 0 to |others|
      invariant FirstTrouble(c, others, r, excluded) == FirstTrouble(c, others[i..], r, excluded)
    {
      var placed := others[i];
      assert others[i..][0] == placed && others[i..][1..] == others[i + 1..];
      if excluded.Some? && placed.publicId == excluded.value {
        continue;
      }
      if placed.item !in c {
        return Some(ItemNotFound);
      }
      if c[placed.item].size.None? {
        continue;
      }
      var otherWidth, otherHeight := c[placed.item].size.value.width, c[placed.item].size.value.height;
      if Truncate(placed.at.z) == 1 {
        otherWidth, otherHeight := otherHeight, otherWidth;
      }
      if Overlaps(r, Rect(placed.at.x, placed.at.y, otherWidth, otherHeight)) {
        return Some(Occupied);
      }
    }
    trouble := None;
  }

  // ----- The steps -----

  function Find(placed: seq<Placed>, publicId: int): (r: Option<nat>)
    ensures r.Some? ==> r.value < |placed| && placed[r.value].publicId == publicId
    ensures r.None? ==> forall i :: 0 <= i < |placed| ==> placed[i].publicId != publicId
  {
    if placed == [] then None
    else if placed[0].publicId == publicId then Some(0)
    else
      var rest := Find(placed[1..], publicId);
      if rest.Some? then Some(rest.value + 1) else
        assert forall i :: 1 <= i < |placed| ==> placed[i] == placed[1..][i - 1];
        None
  }

  function CountOf(placed: seq<Placed>, user: int, item: string): nat {
    if placed == [] then 0
    else (if placed[0].user == user && placed[0].item == item then 1 else 0) + CountOf(placed[1..], user, item)
  }

  function Owned(s: State, user: int, item: string): nat {
    if (user, item) in s.owned then s.owned[(user, item)] else 0
  }

  function Without(placed: seq<Placed>, i: nat): seq<Placed>
    requires i < |placed|
  {
    placed[..i] + placed[i + 1..]
  }

  function NewPlacement(c: Catalog, s: State, p: Placed): (State, Reply) {
    if (p.user, p.item) !in s.owned then (s, NotOwned)
    else if CountOf(s.placed, p.user, p.item) >= s.owned[(p.user, p.item)] then (s, LimitExceeded)
    else
      var trouble := PlacementTrouble(c, PlacedBy(s.placed, p.user), p.item, p.at, None);
      if trouble.Some? then (s, trouble.value)
      else if Find(s.placed, p.publicId).Some? then (s, DuplicateId)
      else (s.(placed := s.placed + [p]), Done)
  }

  function PlaceStep(c: Catalog, s: State, user: int, item: string, at: Position, publicId: Option<int>,
                     generated: int): (State, Reply) {
    if user !in s.users then (s, UserNotFound)
    else if item !in c then (s, ItemNotFound)
    else if !c[item].isFurniture then (s, NotFurniture)
    else
      var existing := if publicId.Some? then Find(s.placed, publicId.value) else None;
      if existing.Some? then
        (s, if s.placed[existing.value] == Placed(publicId.value, user, item, at) then Replayed
            else IdempotencyConflict)
      else
        NewPlacement(c, s, Placed(if publicId.Some? then publicId.value else generated, user, item, at))
  }

  function MoveStep(c: Catalog, s: State, user: int, placementId: int, at: Position): (State, Reply) {
    if user !in s.users then (s, UserNotFound)
    else
      var found := Find(s.placed, placementId);
      if found.None? || s.placed[found.value].user != user then (s, PlacementNotFound)
      else if s.placed[found.value].item !in c then (s, ItemNotFound)
      else
        var trouble := PlacementTrouble(c, PlacedBy(s.placed, user), s.placed[found.value].item, at, Some(placementId));
        if trouble.Some? then (s, trouble.value)
        else (s.(placed := s.placed[found.value := s.placed[found.value].(at := at)]), Done)
  }

  function RemoveStep(s: State, user: int, placementId: int): (State, Reply) {
    if user !in s.users then (s, UserNotFound)
    else
      var found := Find(s.placed, placementId);
      if found.None? || s.placed[found.value].user != user then (s, PlacementNotFound)
      else (s.(placed := Without(s.placed, found.value)), Done)
  }

  // ----- The starter layout -----

  const STARTER_ITEMS: seq<(string, nat)> :=
    [("furniture.table", 1), ("furniture.sofa", 1), ("decor.plant", 2), ("furniture.catTower", 1), ("furniture.bed", 1)]

  const STARTER_PLACES: seq<(string, Position)> :=
    [ ("furniture.table", Position(1.0, 1.0, 0.0)), ("furniture.sofa", Position(5.0, 1.0, 0.0)),
      ("decor.plant", Position(8.0, 2.0, 0.0)), ("furniture.catTower", Position(0.0, 5.0, 0.0)),
      ("furniture.bed", Position(6.0, 5.0, 0.0)) ]

  /** The sizes of the starter items, and no empty sizes anywhere. */
  predicate CatalogOk(c: Catalog) {
    && (forall item :: item in c && c[item].size.Some? ==>
        c[item].size.value.width >= 1 && c[item].size.value.height >= 1)
    && "furniture.table" in c && c["furniture.table"] == Item(true, Some(Size(2, 1)))
    && "furniture.sofa" in c && c["furniture.sofa"] == Item(true, Some(Size(3, 1)))
    && "decor.plant" in c && c["decor.plant"] == Item(true, Some(Size(1, 1)))
    && "furniture.catTower" in c && c["furniture.catTower"] == Item(true, Some(Size(2, 1)))
    && "furniture.bed" in c && c["furniture.bed"] == Item(true, Some(Size(3, 2)))
  }

  function StarterPlacements(user: int, ids: seq<int>, n: nat): seq<Placed>
    requires n <= |STARTER_PLACES| && n <= |ids|
  {
    seq(n, i requires 0 <= i < n => Placed(ids[i], user, STARTER_PLACES[i].0, STARTER_PLACES[i].1))
  }

  /** Starter quantities are granted only where the user has no such asset yet. */
  function GrantStarter(owned: map<(int, string), nat>, user: int, n: nat): map<(int, string), nat>
    requires n <= |STARTER_ITEMS|
  {
    if n == 0 then owned
    else
      var before := GrantStarter(owned, user, n - 1);
      var (item, quantity) := STARTER_ITEMS[n - 1];
      if (user, item) in before then before else before[(user, item) := quantity]
  }

  /** The five generated ids are new and all different. */
  predicate FreshIds(placed: seq<Placed>, ids: seq<int>) {
    && |ids| == |STARTER_PLACES|
    && (forall i, j :: 0 <= i < j < |ids| ==> ids[i] != ids[j])
    && (forall i, k :: 0 <= i < |ids| && 0 <= k < |placed| ==> placed[k].publicId != ids[i])
  }

  function BootstrapStep(s: State, user: int, ids: seq<int>): (State, Reply) {
    if user !in s.users then (s, UserNotFound)
    else if user in s.started then (s, AlreadyStarted)
    else if !FreshIds(s.placed, ids) then (s, DuplicateId)
    else
      var layout := if PlacedBy(s.placed, user) == [] then StarterPlacements(user, ids, |STARTER_PLACES|) else [];
      var owned := GrantStarter(s.owned, user, |STARTER_ITEMS|);
      (State(s.users, s.started + {user}, s.placed + layout, owned), Done)
  }

  /** A shop or a draw adds to what a user owns. */
  function AcquireStep(s: State, user: int, item: string, quantity: nat): (State, Reply) {
    if quantity == 0 then (s, ItemNotFound)
    else (s.(owned := s.owned[(user, item) := Owned(s, user, item) + quantity]), Done)
  }

  function Step(c: Catalog, s: State, e: Event): (State, Reply) {
    match e
    case Register(user) => (s.(users := s.users + {user}), Done)
    case Bootstrap(user, ids) => BootstrapStep(s, user, ids)
    case Acquire(user, item, quantity) => AcquireStep(s, user, item, quantity)
    case Place(user, item, at, publicId, generated) => PlaceStep(c, s, user, item, at, publicId, generated)
    case Move(user, placementId, at) => MoveStep(c, s, user, placementId, at)
    case Remove(user, placementId) => RemoveStep(s, user, placementId)
  }

  // ----- The service, updating the rows -----

  class RoomService {
    const catalog: Catalog
    var users: set<int>
    var started: set<int>
    var placed: seq<Placed>
    var owned: map<(int, string), nat>

    constructor (catalog: Catalog)
      ensures this.catalog == catalog
      ensures Value() == EMPTY
    {
      this.catalog := catalog;
      users, started, placed, owned := {}, {}, [], map[];
    }

    function Value(): State
      reads this
    {
      State(users, started, placed, owned)
    }

    method RegisterUser(user: int)
      modifies this`users
      ensures Value() == Step(catalog, old(Value()), Register(user)).0
    {
      users := users + {user};
    }

    method PlaceFurniture(user: int, item: string, at: Position, publicId: Option<int>, generated: int)
      returns (r: Reply)
      modifies this`placed
      ensures (Value(), r) == PlaceStep(catalog, old(Value()), user, item, at, publicId, generated)
    {
      hide PlacementTrouble, CountOf;
      if user !in users {
        return UserNotFound;
      }
      if item !in catalog {
        return ItemNotFound;
      }
      if !catalog[item].isFurniture {
        return NotFurniture;
      }
      if publicId.Some? {
        var existing := Find(placed, publicId.value);
        if existing.Some? {
          var row := placed[existing.value];
          if row.user != user || row.item != item || row.at != at {
            return IdempotencyConflict;
          }
          return Replayed;
        }
      }
      if (user, item) !in owned {
        return NotOwned;
      }
      var placedCount := CountOf(placed, user, item);
      if placedCount >= owned[(user, item)] {
        return LimitExceeded;
      }
      var trouble := EnsurePlacementFree(catalog, PlacedBy(placed, user), item, at, None);
      if trouble.Some? {
        return trouble.value;
      }
      var id := if publicId.Some? then publicId.value else generated;
      if Find(placed, id).Some? {
        return DuplicateId;
      }
      placed := placed + [Placed(id, user, item, at)];
      r := Done;
    }

    method UpdateFurniturePlacement(user: int, placementId: int, at: Position) returns (r: Reply)
      modifies this`placed
      ensures (Value(), r) == MoveStep(catalog, old(Value()), user, placementId, at)
    {
      hide PlacementTrouble;
      if user !in users {
        return UserNotFound;
      }
      var found := Find(placed, placementId);
      if found.None? || placed[found.value].user != user {
        return PlacementNotFound;
      }
      var row := placed[found.value];
      if row.item !in catalog {
        return ItemNotFound;
      }
      var trouble := EnsurePlacementFree(catalog, PlacedBy(placed, user), row.item, at, Some(placementId));
      if trouble.Some? {
        return trouble.value;
      }
      placed := placed[found.value := row.(at := at)];
      r := Done;
    }

    method RemoveFurniturePlacement(user: int, placementId: int) returns (r: Reply)
      modifies this`placed
      ensures (Value(), r) == RemoveStep(old(Value()), user, placementId)
    {
      if user !in users {
        return UserNotFound;
      }
      var found := Find(placed, placementId);
      if found.None? || placed[found.value].user != user {
        return PlacementNotFound;
      }
      placed := placed[..found.value] + placed[found.value + 1..];
      r := Done;
    }

    method BootstrapStarterPack(user: int, ids: seq<int>) returns (r: Reply)
      modifies this
      ensures (Value(), r) == BootstrapStep(old(Value()), user, ids)
    {
      if user !in users {
        return UserNotFound;
      }
      if user in started {
        return AlreadyStarted;
      }
      if !FreshIds(placed, ids) {
        return DuplicateId;
      }
      for n := 0 to |STARTER_ITEMS|
        invariant owned == GrantStarter(old(owned), user, n)
        invariant placed == old(placed) && users == old(users) && started == old(started)
      {
        var (item, quantity) := STARTER_ITEMS[n];
        if (user, item) !in owned {
          owned := owned[(user, item) := quantity];
        }
      }
      assert placed + [] == placed;
      if PlacedBy(placed, user) == [] {
        for n := 0 to |STARTER_PLACES|
          invariant placed == old(placed) + StarterPlacements(user, ids, n)
          invariant owned == GrantStarter(old(owned), user, |STARTER_ITEMS|)
          invariant users == old(users) && started == old(started)
        {
          placed := placed + [Placed(ids[n], user, STARTER_PLACES[n].0, STARTER_PLACES[n].1)];
        }
      }
      started := started + {user};
      r := Done;
    }
  }
}
