/** What every run of placing, moving, removing and buying keeps true of all rooms. */
module RoomSafety {
  import opened Common
  import opened Grid
  import opened Housing

  // ----- The invariant -----

  ghost predicate RectOk(c: Catalog, p: Placed) {
    p.item in c && (PlacedRect(c, p).Some? ==> OnGrid(PlacedRect(c, p).value) && WholeCoordinates(p.at))
  }

  /** Two catalogued objects of one user share no cell. */
  ghost predicate Apart(c: Catalog, p: Placed, q: Placed) {
    p.user == q.user && PlacedRect(c, p).Some? && PlacedRect(c, q).Some?
    ==> Cells(PlacedRect(c, p).value) !! Cells(PlacedRect(c, q).value)
  }

  ghost predicate LayoutOk(c: Catalog, placed: seq<Placed>) {
    && (forall i :: 0 <= i < |placed| ==> RectOk(c, placed[i]))
    && (forall i, j :: 0 <= i < |placed| && 0 <= j < |placed| && i != j ==> Apart(c, placed[i], placed[j]))
  }

  ghost predicate DistinctIds(placed: seq<Placed>) {
    forall i, j :: 0 <= i < j < |placed| ==> placed[i].publicId != placed[j].publicId
  }

  ghost predicate CountsOk(s: State) {
    && (forall user, item :: CountOf(s.placed, user, item) <= Owned(s, user, item))
    && (forall key :: key in s.owned ==> s.owned[key] >= 1)
  }

  ghost predicate Sound(c: Catalog, s: State) {
    DistinctIds(s.placed) && LayoutOk(c, s.placed) && CountsOk(s)
  }

  // ----- The scan for collisions -----

  lemma {:induction false} PlacedByExactly(placed: seq<Placed>, user: int)
    ensures forall p :: p in PlacedBy(placed, user) <==> p in placed && p.user == user
  {
    if placed != [] {
      assert placed == [placed[0]] + placed[1..];
      PlacedByExactly(placed[1..], user);
    }
  }

  /** The scan does not care about p: it is excluded, not catalogued, or shares no cell with r. */
  ghost predicate Clear(c: Catalog, r: Rect, p: Placed, excluded: Option<int>) {
    excluded == Some(p.publicId) || PlacedRect(c, p).None? || Cells(r) !! Cells(PlacedRect(c, p).value)
  }

  /** The scan finds nothing exactly when the rectangle shares no cell with any object but the excluded one. */
  lemma {:induction false} ScanIsExact(c: Catalog, others: seq<Placed>, r: Rect, excluded: Option<int>)
    requires OnGrid(r) && forall i :: 0 <= i < |others| ==> RectOk(c, others[i])
    ensures FirstTrouble(c, others, r, excluded).None?
            <==> forall i :: 0 <= i < |others| ==> Clear(c, r, others[i], excluded)
  {
    hide Cells, Overlaps, RectOf, OnGrid, PlacedRect;
    if others != [] {
      var rest := others[1..];
      ScanIsExact(c, rest, r, excluded);
      assert RectOk(c, others[0]);
      if excluded != Some(others[0].publicId) && PlacedRect(c, others[0]).Some? {
        OverlapIffSharedCell(r, PlacedRect(c, others[0]).value);
      }
      assert FirstTrouble(c, others, r, excluded).None?
        <==> Clear(c, r, others[0], excluded) && FirstTrouble(c, rest, r, excluded).None?;
      hide FirstTrouble, Clear, RectOk;
      assert (forall i :: 0 <= i < |others| ==> Clear(c, r, others[i], excluded))
        <==> Clear(c, r, others[0], excluded) && (forall i :: 0 <= i < |rest| ==> Clear(c, r, rest[i], excluded)) by {
        assert forall i :: 1 <= i < |others| ==> others[i] == rest[i - 1];
      }
    }
  }

  /** A catalogued rectangle with whole coordinates and inside the room is on the grid. */
  lemma {:induction false} RectIsOnGrid(c: Catalog, item: string, at: Position)
    requires CatalogOk(c) && RectOf(c, item, at).Some? && WholeCoordinates(at) && InsideRoom(RectOf(c, item, at).value)
    ensures OnGrid(RectOf(c, item, at).value)
  {
  }

  /** The place is free: on the grid, and no cell shared with the user's other objects. */
  ghost predicate FreeFor(c: Catalog, placed: seq<Placed>, p: Placed, excluded: Option<int>) {
    PlacedRect(c, p).Some? ==>
      && WholeCoordinates(p.at) && InsideRoom(PlacedRect(c, p).value)
      && forall q :: q in placed && excluded != Some(q.publicId) ==> Apart(c, p, q)
  }

  lemma {:induction false} TroubleIsExact(c: Catalog, placed: seq<Placed>, p: Placed, excluded: Option<int>)
    requires CatalogOk(c) && LayoutOk(c, placed)
    ensures PlacementTrouble(c, PlacedBy(placed, p.user), p.item, p.at, excluded).None?
            <==> FreeFor(c, placed, p, excluded)
  {
    hide PlacedBy, FirstTrouble, Cells, OnGrid, RectOf, WholeCoordinates, InsideRoom;
    ghost var mine := PlacedBy(placed, p.user);
    PlacedByExactly(placed, p.user);
    var r := RectOf(c, p.item, p.at);
    if r.Some? && WholeCoordinates(p.at) && InsideRoom(r.value) {
      RectIsOnGrid(c, p.item, p.at);
      forall i | 0 <= i < |mine|
        ensures RectOk(c, mine[i])
      {
        assert mine[i] in placed;
      }
      ScanIsExact(c, mine, r.value, excluded);
      ClearIsApart(c, placed, mine, p, excluded);
    }
  }

  lemma {:induction false} ClearIsApart(c: Catalog, placed: seq<Placed>, mine: seq<Placed>, p: Placed,
                                        excluded: Option<int>)
    requires PlacedRect(c, p).Some? && forall q :: q in mine <==> q in placed && q.user == p.user
    ensures (forall i :: 0 <= i < |mine| ==> Clear(c, PlacedRect(c, p).value, mine[i], excluded))
       <==> (forall q :: q in placed && excluded != Some(q.publicId) ==> Apart(c, p, q))
  {
  }

  // ----- What changes keep -----

  lemma {:induction false} AddKeepsLayout(c: Catalog, placed: seq<Placed>, p: Placed)
    requires CatalogOk(c) && LayoutOk(c, placed) && p.item in c && FreeFor(c, placed, p, None)
    ensures LayoutOk(c, placed + [p])
  {
  }

  lemma {:induction false} MoveKeepsLayout(c: Catalog, placed: seq<Placed>, k: nat, p: Placed)
    requires CatalogOk(c) && LayoutOk(c, placed) && DistinctIds(placed) && k < |placed|
    requires p.item in c && p.publicId == placed[k].publicId && FreeFor(c, placed, p, Some(p.publicId))
    ensures LayoutOk(c, placed[k := p])
  {
  }

  lemma {:induction false} RemoveKeepsLayout(c: Catalog, placed: seq<Placed>, k: nat)
    requires LayoutOk(c, placed) && DistinctIds(placed) && k < |placed|
    ensures LayoutOk(c, Without(placed, k)) && DistinctIds(Without(placed, k))
  {
  }

  lemma {:induction false} CountConcat(a: seq<Placed>, b: seq<Placed>, user: int, item: string)
    ensures CountOf(a + b, user, item) == CountOf(a, user, item) + CountOf(b, user, item)
  {
    if a == [] {
      assert a + b == b;
    } else {
      assert (a + b)[1..] == a[1..] + b;
      CountConcat(a[1..], b, user, item);
    }
  }

  lemma {:induction false} CountSplit(placed: seq<Placed>, k: nat, user: int, item: string)
    requires k < |placed|
    ensures CountOf(placed, user, item)
            == CountOf(placed[..k], user, item) + CountOf([placed[k]], user, item)
                + CountOf(placed[k + 1..], user, item)
  {
    assert placed == placed[..k] + ([placed[k]] + placed[k + 1..]);
    CountConcat(placed[..k], [placed[k]] + placed[k + 1..], user, item);
    CountConcat([placed[k]], placed[k + 1..], user, item);
  }

  lemma {:induction false} CountWithout(placed: seq<Placed>, k: nat, user: int, item: string)
    requires k < |placed|
    ensures CountOf(Without(placed, k), user, item) <= CountOf(placed, user, item)
  {
    CountSplit(placed, k, user, item);
    CountConcat(placed[..k], placed[k + 1..], user, item);
    hide CountOf;
  }

  lemma {:induction false} CountMoved(placed: seq<Placed>, k: nat, at: Position, user: int, item: string)
    requires k < |placed|
    ensures CountOf(placed[k := placed[k].(at := at)], user, item) == CountOf(placed, user, item)
  {
    var after := placed[k := placed[k].(at := at)];
    CountSplit(placed, k, user, item);
    CountSplit(after, k, user, item);
    assert after[..k] == placed[..k] && after[k + 1..] == placed[k + 1..];
  }

  // ----- Steps -----

  lemma {:induction false} PlaceKeeps(c: Catalog, s: State, p: Placed)
    requires CatalogOk(c) && Sound(c, s) && p.item in c
    ensures Sound(c, NewPlacement(c, s, p).0)
  {
    TroubleIsExact(c, s.placed, p, None);
    hide LayoutOk, PlacementTrouble, FreeFor, CountOf;
    var after := NewPlacement(c, s, p).0;
    if after != s {
      AddKeepsLayout(c, s.placed, p);
      forall user, item
        ensures CountOf(after.placed, user, item) <= Owned(after, user, item)
      {
        CountConcat(s.placed, [p], user, item);
        CountOne(p, user, item);
      }
    }
  }

  lemma {:induction false} CountOne(p: Placed, user: int, item: string)
    ensures CountOf([p], user, item) == if p.user == user && p.item == item then 1 else 0
  {
  }

  lemma {:induction false} MoveKeeps(c: Catalog, s: State, user: int, placementId: int, at: Position)
    requires CatalogOk(c) && Sound(c, s)
    ensures Sound(c, MoveStep(c, s, user, placementId, at).0)
  {
    hide LayoutOk, PlacementTrouble, FreeFor, CountOf;
    var found := Find(s.placed, placementId);
    var after := MoveStep(c, s, user, placementId, at).0;
    if after != s {
      var k := found.value;
      var p := s.placed[k].(at := at);
      TroubleIsExact(c, s.placed, p, Some(placementId));
      MoveKeepsLayout(c, s.placed, k, p);
      forall u, item
        ensures CountOf(after.placed, u, item) <= Owned(after, u, item)
      {
        CountMoved(s.placed, k, at, u, item);
      }
    }
  }

  lemma {:induction false} RemoveKeeps(c: Catalog, s: State, user: int, placementId: int)
    requires Sound(c, s)
    ensures Sound(c, RemoveStep(s, user, placementId).0)
  {
    hide LayoutOk, CountOf, DistinctIds;
    var found := Find(s.placed, placementId);
    var after := RemoveStep(s, user, placementId).0;
    if after != s {
      RemoveKeepsLayout(c, s.placed, found.value);
      forall u, item
        ensures CountOf(after.placed, u, item) <= Owned(after, u, item)
      {
        CountWithout(s.placed, found.value, u, item);
      }
    }
  }

  lemma {:induction false} AcquireKeeps(c: Catalog, s: State, user: int, item: string, quantity: nat)
    requires Sound(c, s)
    ensures Sound(c, AcquireStep(s, user, item, quantity).0)
  {
  }

  lemma {:induction false} RegisterKeeps(c: Catalog, s: State, user: int)
    requires Sound(c, s)
    ensures Sound(c, s.(users := s.users + {user}))
  {
  }

  // ----- The starter layout -----

  lemma {:induction false} GrantKeeps(owned: map<(int, string), nat>, user: int, n: nat)
    requires n <= |STARTER_ITEMS| && forall key :: key in owned ==> owned[key] >= 1
    ensures forall key :: key in GrantStarter(owned, user, n) ==> GrantStarter(owned, user, n)[key] >= 1
    ensures forall key :: key in owned ==>
            key in GrantStarter(owned, user, n) && GrantStarter(owned, user, n)[key] == owned[key]
    ensures forall k :: 0 <= k < n ==> (user, STARTER_ITEMS[k].0) in GrantStarter(owned, user, n)
  {
    if n > 0 {
      GrantKeeps(owned, user, n - 1);
      var item := STARTER_ITEMS[n - 1].0;
      assert STARTER_ITEMS[n - 1].1 >= 1;
      assert (user, item) in GrantStarter(owned, user, n);
    }
  }

  /** The layout as a list. */
  lemma {:induction false} StarterIs(user: int, ids: seq<int>)
    requires |ids| == |STARTER_PLACES|
    ensures StarterPlacements(user, ids, 5)
            == [ Placed(ids[0], user, "furniture.table", Position(1.0, 1.0, 0.0)),
                 Placed(ids[1], user, "furniture.sofa", Position(5.0, 1.0, 0.0)),
                 Placed(ids[2], user, "decor.plant", Position(8.0, 2.0, 0.0)),
                 Placed(ids[3], user, "furniture.catTower", Position(0.0, 5.0, 0.0)),
                 Placed(ids[4], user, "furniture.bed", Position(6.0, 5.0, 0.0)) ]
  {
  }

  lemma {:induction false} StarterRects(c: Catalog, user: int, ids: seq<int>)
    requires CatalogOk(c) && |ids| == |STARTER_PLACES|
    ensures var layout := StarterPlacements(user, ids, 5);
            && layout[0].item in c && PlacedRect(c, layout[0]) == Some(Rect(1.0, 1.0, 2, 1))
            && layout[1].item in c && PlacedRect(c, layout[1]) == Some(Rect(5.0, 1.0, 3, 1))
            && layout[2].item in c && PlacedRect(c, layout[2]) == Some(Rect(8.0, 2.0, 1, 1))
            && layout[3].item in c && PlacedRect(c, layout[3]) == Some(Rect(0.0, 5.0, 2, 1))
            && layout[4].item in c && PlacedRect(c, layout[4]) == Some(Rect(6.0, 5.0, 3, 2))
  {
  }

  /** The starter layout satisfies the invariant on its own. */
  lemma {:induction false} StarterLayoutOk(c: Catalog, user: int, ids: seq<int>)
    requires CatalogOk(c) && |ids| == |STARTER_PLACES|
    ensures LayoutOk(c, StarterPlacements(user, ids, 5))
  {
    var layout := StarterPlacements(user, ids, 5);
    StarterRects(c, user, ids);
    var rects := [Rect(1.0, 1.0, 2, 1), Rect(5.0, 1.0, 3, 1), Rect(8.0, 2.0, 1, 1), Rect(0.0, 5.0, 2, 1),
                  Rect(6.0, 5.0, 3, 2)];
    StarterRectsApart(rects);
    hide CatalogOk, StarterPlacements, RectOf, Cells, OnGrid, PlacedRect;
    assert forall i :: 0 <= i < 5 ==> layout[i].item in c && PlacedRect(c, layout[i]) == Some(rects[i]);
    forall i | 0 <= i < 5
      ensures WholeCoordinates(layout[i].at)
    {
      StarterCoordinates(user, ids, i);
    }
  }

  lemma {:induction false} StarterCoordinates(user: int, ids: seq<int>, i: nat)
    requires |ids| == |STARTER_PLACES| && i < 5
    ensures WholeCoordinates(StarterPlacements(user, ids, 5)[i].at)
  {
  }

  lemma {:induction false} StarterRectsApart(rects: seq<Rect>)
    requires rects == [Rect(1.0, 1.0, 2, 1), Rect(5.0, 1.0, 3, 1), Rect(8.0, 2.0, 1, 1), Rect(0.0, 5.0, 2, 1),
                       Rect(6.0, 5.0, 3, 2)]
    ensures forall i :: 0 <= i < 5 ==> OnGrid(rects[i])
    ensures forall i, j :: 0 <= i < 5 && 0 <= j < 5 && i != j ==> Cells(rects[i]) !! Cells(rects[j])
  {
  }

  lemma {:induction false} StarterCounts(user: int, ids: seq<int>, u: int, item: string)
    requires |ids| == |STARTER_PLACES|
    ensures CountOf(StarterPlacements(user, ids, 5), u, item) <= 1
    ensures CountOf(StarterPlacements(user, ids, 5), u, item) == 1 ==>
            u == user && exists k :: 0 <= k < 5 && STARTER_ITEMS[k].0 == item
  {
    var layout := StarterPlacements(user, ids, 5);
    StarterIs(user, ids);
    StarterNamesDiffer();
    hide StarterPlacements;
    CountAtMostOne(layout, u, item);
    if CountOf(layout, u, item) == 1 {
      CountedIsThere(layout, u, item);
      var k :| 0 <= k < |layout| && layout[k].user == u && layout[k].item == item;
      assert STARTER_ITEMS[k].0 == item;
    }
  }

  lemma {:induction false} StarterNamesDiffer()
    ensures forall i, j :: 0 <= i < j < 5 ==> STARTER_PLACES[i].0 != STARTER_PLACES[j].0
    ensures forall i :: 0 <= i < 5 ==> STARTER_PLACES[i].0 == STARTER_ITEMS[i].0
  {
  }

  lemma {:induction false} CountedIsThere(placed: seq<Placed>, user: int, item: string)
    requires CountOf(placed, user, item) > 0
    ensures exists k :: 0 <= k < |placed| && placed[k].user == user && placed[k].item == item
  {
    if placed[0].user != user || placed[0].item != item {
      CountedIsThere(placed[1..], user, item);
      var k :| 0 <= k < |placed[1..]| && placed[1..][k].user == user && placed[1..][k].item == item;
      assert placed[k + 1] == placed[1..][k];
    }
  }

  lemma {:induction false} CountAtMostOne(placed: seq<Placed>, user: int, item: string)
    requires forall i, j :: 0 <= i < j < |placed| ==> placed[i].item != placed[j].item
    ensures CountOf(placed, user, item) <= 1
  {
    if placed != [] {
      CountAtMostOne(placed[1..], user, item);
      if placed[0].item == item && CountOf(placed[1..], user, item) > 0 {
        CountedIsThere(placed[1..], user, item);
      }
    }
  }

  lemma {:induction false} NothingPlaced(placed: seq<Placed>, user: int, item: string)
    requires PlacedBy(placed, user) == []
    ensures CountOf(placed, user, item) == 0
    ensures forall p :: p in placed ==> p.user != user
  {
    PlacedByExactly(placed, user);
    assert forall p :: p in placed ==> p.user != user;
    if CountOf(placed, user, item) > 0 {
      CountedIsThere(placed, user, item);
    }
  }

  lemma {:induction false} OtherUsersLayout(c: Catalog, placed: seq<Placed>, layout: seq<Placed>, user: int)
    requires LayoutOk(c, placed) && LayoutOk(c, layout)
    requires (forall p :: p in placed ==> p.user != user) && (forall i :: 0 <= i < |layout| ==> layout[i].user == user)
    ensures LayoutOk(c, placed + layout)
  {
  }

  lemma {:induction false} BootstrapKeeps(c: Catalog, s: State, user: int, ids: seq<int>)
    requires CatalogOk(c) && Sound(c, s)
    ensures Sound(c, BootstrapStep(s, user, ids).0)
  {
    if user in s.users && user !in s.started && FreshIds(s.placed, ids) {
      GrantKeeps(s.owned, user, |STARTER_ITEMS|);
      var after := BootstrapStep(s, user, ids).0;
      if PlacedBy(s.placed, user) == [] {
        var layout := StarterPlacements(user, ids, 5);
        NothingPlaced(s.placed, user, "");
        StarterLayoutOk(c, user, ids);
        hide CatalogOk, LayoutOk, CountOf, GrantStarter;
        OtherUsersLayout(c, s.placed, layout, user);
        BootstrapCounts(s, user, ids, after);
      } else {
        hide LayoutOk, CountOf, GrantStarter;
        assert s.placed + [] == s.placed;
      }
    }
  }

  lemma {:induction false} BootstrapCounts(s: State, user: int, ids: seq<int>, after: State)
    requires CountsOk(s) && |ids| == |STARTER_PLACES| && PlacedBy(s.placed, user) == []
    requires after.placed == s.placed + StarterPlacements(user, ids, 5)
    requires after.owned == GrantStarter(s.owned, user, |STARTER_ITEMS|)
    ensures CountsOk(after)
  {
    GrantKeeps(s.owned, user, |STARTER_ITEMS|);
    hide CountOf, GrantStarter, PlacedBy, StarterPlacements;
    forall u, item
      ensures CountOf(after.placed, u, item) <= Owned(after, u, item)
    {
      CountConcat(s.placed, StarterPlacements(user, ids, 5), u, item);
      StarterCounts(user, ids, u, item);
      assert CountOf(s.placed, u, item) <= Owned(s, u, item);
      if u == user {
        NothingPlaced(s.placed, user, item);
      }
    }
  }

  // ----- Runs -----

  lemma {:induction false} StepKeeps(c: Catalog, s: State, e: Event)
    requires CatalogOk(c) && Sound(c, s)
    ensures Sound(c, Step(c, s, e).0)
  {
    hide CatalogOk, Sound, NewPlacement, MoveStep, RemoveStep, BootstrapStep, AcquireStep;
    match e
    case Register(user) => RegisterKeeps(c, s, user);
    case Bootstrap(user, ids) => BootstrapKeeps(c, s, user, ids);
    case Acquire(user, item, quantity) => AcquireKeeps(c, s, user, item, quantity);
    case Place(user, item, at, publicId, generated) =>
      if item in c {
        PlaceKeeps(c, s, Placed(if publicId.Some? then publicId.value else generated, user, item, at));
      }
    case Move(user, placementId, at) => MoveKeeps(c, s, user, placementId, at);
    case Remove(user, placementId) => RemoveKeeps(c, s, user, placementId);
  }

  function Run(c: Catalog, s: State, events: seq<Event>): State
    decreases |events|
  {
    if events == [] then s else Run(c, Step(c, s, events[0]).0, events[1..])
  }

  lemma {:induction false} RunKeeps(c: Catalog, s: State, events: seq<Event>)
    requires CatalogOk(c) && Sound(c, s)
    ensures Sound(c, Run(c, s, events))
    decreases |events|
  {
    hide CatalogOk, Sound, Step;
    if events != [] {
      StepKeeps(c, s, events[0]);
      RunKeeps(c, Step(c, s, events[0]).0, events[1..]);
    }
  }

  /** The rectangles of one user's catalogued objects. */
  function Rects(c: Catalog, placed: seq<Placed>, user: int): seq<Rect> {
    if placed == [] then []
    else if placed[0].user == user && PlacedRect(c, placed[0]).Some? then
      [PlacedRect(c, placed[0]).value] + Rects(c, placed[1..], user)
    else
      Rects(c, placed[1..], user)
  }

  lemma {:induction false} RectsFrom(c: Catalog, placed: seq<Placed>, user: int)
    ensures forall r ::
              r in Rects(c, placed, user) <==>
              exists i :: 0 <= i < |placed| && placed[i].user == user && PlacedRect(c, placed[i]) == Some(r)
  {
    hide PlacedRect;
    if placed != [] {
      var rest := placed[1..];
      RectsFrom(c, rest, user);
      forall r
        ensures r in Rects(c, placed, user)
                <==> exists i :: 0 <= i < |placed| && placed[i].user == user && PlacedRect(c, placed[i]) == Some(r)
      {
        if i :| 0 <= i < |placed| && placed[i].user == user && PlacedRect(c, placed[i]) == Some(r) {
          assert i > 0 ==> rest[i - 1] == placed[i];
        }
        if r in Rects(c, rest, user) {
          var i :| 0 <= i < |rest| && rest[i].user == user && PlacedRect(c, rest[i]) == Some(r);
          assert placed[i + 1] == rest[i];
        }
      }
    }
  }

  lemma {:induction false} RectsDisjoint(c: Catalog, placed: seq<Placed>, user: int)
    requires LayoutOk(c, placed)
    ensures Disjoint(Rects(c, placed, user))
    ensures forall i :: 0 <= i < |Rects(c, placed, user)| ==> OnGrid(Rects(c, placed, user)[i])
  {
    hide PlacedRect, Cells, OnGrid;
    if placed != [] {
      var p, rest := placed[0], placed[1..];
      assert LayoutOk(c, rest);
      RectsDisjoint(c, rest, user);
      var rects := Rects(c, rest, user);
      RectsFrom(c, rest, user);
      if p.user == user && PlacedRect(c, p).Some? {
        assert RectOk(c, p);
        forall j | 0 <= j < |rects|
          ensures Cells(PlacedRect(c, p).value) !! Cells(rects[j])
        {
          assert rects[j] in rects;
          var i :| 0 <= i < |rest| && rest[i].user == user && PlacedRect(c, rest[i]) == Some(rects[j]);
          assert placed[i + 1] == rest[i] && Apart(c, placed[0], placed[i + 1]);
        }
      }
    }
  }

  /**
   After any run from empty tables, for every user: the catalogued furniture has pairwise disjoint
   cell sets inside the 10 by 8 grid, takes at most 80 cells, and no item is placed more often
   than it is owned.
   */
  lemma {:induction false} RoomsAreSafe(c: Catalog, events: seq<Event>, user: int, item: string)
    requires CatalogOk(c)
    ensures var s := Run(c, EMPTY, events);
            && Disjoint(Rects(c, s.placed, user))
            && (forall i :: 0 <= i < |Rects(c, s.placed, user)| ==> Cells(Rects(c, s.placed, user)[i]) <= Room())
            && TotalArea(Rects(c, s.placed, user)) <= 80
            && CountOf(s.placed, user, item) <= Owned(s, user, item)
  {
    assert Sound(c, EMPTY);
    RunKeeps(c, EMPTY, events);
    var s := Run(c, EMPTY, events);
    hide Run, CatalogOk;
    RectsDisjoint(c, s.placed, user);
    var rects := Rects(c, s.placed, user);
    hide Rects, Disjoint, LayoutOk, Cells, OnGrid, TotalArea, Room;
    AreaFits(rects);
    forall i | 0 <= i < |rects|
      ensures Cells(rects[i]) <= Room()
    {
      CellsInRoom(rects[i]);
    }
  }

  // ----- When a placement is accepted -----

  /** With a new id, placing succeeds exactly when one more is owned than placed and the place is free. */
  lemma {:induction false} PlacedIffFree(c: Catalog, s: State, p: Placed)
    requires CatalogOk(c) && Sound(c, s) && p.user in s.users && p.item in c
    requires c[p.item].isFurniture && Find(s.placed, p.publicId).None?
    ensures PlaceStep(c, s, p.user, p.item, p.at, Some(p.publicId), 0).1 == Done
       <==> (CountOf(s.placed, p.user, p.item) < Owned(s, p.user, p.item) && FreeFor(c, s.placed, p, None))
    ensures PlaceStep(c, s, p.user, p.item, p.at, Some(p.publicId), 0).1 == Done ==>
              PlaceStep(c, s, p.user, p.item, p.at, Some(p.publicId), 0).0.placed == s.placed + [p]
  {
    TroubleIsExact(c, s.placed, p, None);
    TroubleIsNotDone(c, PlacedBy(s.placed, p.user), p.item, p.at, None);
    hide PlacementTrouble, FreeFor, CountOf;
    assert p == Placed(p.publicId, p.user, p.item, p.at);
    CountsNotNegative(s, p);
  }

  lemma {:induction false} CountsNotNegative(s: State, p: Placed)
    requires CountsOk(s)
    ensures (p.user, p.item) !in s.owned ==> Owned(s, p.user, p.item) == 0
  {
  }

  lemma {:induction false} TroubleIsNotDone(c: Catalog, others: seq<Placed>, item: string, at: Position,
                                            excluded: Option<int>)
    ensures PlacementTrouble(c, others, item, at, excluded) != Some(Done)
    ensures PlacementTrouble(c, others, item, at, excluded) != Some(Replayed)
  {
    if RectOf(c, item, at).Some? {
      ScanIsNotDone(c, others, RectOf(c, item, at).value, excluded);
    }
    hide FirstTrouble;
  }

  lemma {:induction false} ScanIsNotDone(c: Catalog, others: seq<Placed>, r: Rect, excluded: Option<int>)
    ensures FirstTrouble(c, others, r, excluded) != Some(Done) && FirstTrouble(c, others, r, excluded) != Some(Replayed)
  {
    hide Overlaps, PlacedRect;
    if others != [] {
      ScanIsNotDone(c, others[1..], r, excluded);
    }
  }

  /** Why a placement under a new id is refused: the first of the reasons. */
  lemma {:induction false} PlaceRefusals(c: Catalog, s: State, p: Placed)
    requires CatalogOk(c) && Sound(c, s) && Find(s.placed, p.publicId).None?
    ensures var (after, reply) := PlaceStep(c, s, p.user, p.item, p.at, Some(p.publicId), 0);
            && (p.user !in s.users ==> reply == UserNotFound)
            && (p.user in s.users && p.item !in c ==> reply == ItemNotFound)
            && (p.user in s.users && p.item in c && !c[p.item].isFurniture ==> reply == NotFurniture)
            && (p.user in s.users && p.item in c && c[p.item].isFurniture ==>
                  && (Owned(s, p.user, p.item) == 0 <==> reply == NotOwned)
                  && (0 < Owned(s, p.user, p.item) <= CountOf(s.placed, p.user, p.item) <==> reply == LimitExceeded))
            && (reply != Done ==> after == s)
  {
    CountsNotNegative(s, p);
    TroubleIsPlace(c, PlacedBy(s.placed, p.user), p.item, p.at, None);
    hide PlacementTrouble, CountOf, LayoutOk, CatalogOk, DistinctIds;
  }

  lemma {:induction false} TroubleIsPlace(c: Catalog, others: seq<Placed>, item: string, at: Position,
                                          excluded: Option<int>)
    ensures PlacementTrouble(c, others, item, at, excluded).Some? ==>
              PlacementTrouble(c, others, item, at, excluded).value in {OutsideRoom, Occupied, ItemNotFound}
  {
    if RectOf(c, item, at).Some? {
      ScanIsPlace(c, others, RectOf(c, item, at).value, excluded);
    }
    hide FirstTrouble;
  }

  lemma {:induction false} ScanIsPlace(c: Catalog, others: seq<Placed>, r: Rect, excluded: Option<int>)
    ensures FirstTrouble(c, others, r, excluded).Some? ==>
              FirstTrouble(c, others, r, excluded).value in {Occupied, ItemNotFound}
  {
    hide Overlaps, PlacedRect;
    if others != [] {
      ScanIsPlace(c, others[1..], r, excluded);
    }
  }

  /** Under a taken id the reply is a replay for the same owner, item and position, and a conflict otherwise. */
  lemma {:induction false} TakenIdDecides(c: Catalog, s: State, k: nat, user: int, item: string, at: Position,
                                          generated: int)
    requires DistinctIds(s.placed) && k < |s.placed| && user in s.users && item in c && c[item].isFurniture
    ensures var p := s.placed[k];
            PlaceStep(c, s, user, item, at, Some(p.publicId), generated)
            == (s, if p.user == user && p.item == item && p.at == at then Replayed else IdempotencyConflict)
  {
    hide NewPlacement;
    assert Find(s.placed, s.placed[k].publicId) == Some(k);
  }

  // ----- Where an object fits -----

  /** The size an object takes on the floor: turned by a quarter when z is 1. */
  function Footprint(size: Size, z: real): Size {
    if z == 1.0 then Size(size.height, size.width) else size
  }

  /**
   The place is free for an object of the catalogue exactly when its coordinates are whole numbers and
   its turn is none or a quarter, it lies between the walls of the 10 by 8 room, and no cell of it is a
   cell of another sized object of the user.
   */
  lemma {:induction false} FreeMeans(c: Catalog, placed: seq<Placed>, p: Placed, excluded: Option<int>)
    requires p.item in c && c[p.item].size.Some? && forall q :: q in placed ==> RectOk(c, q)
    ensures FreeFor(c, placed, p, excluded)
            <==> var (x, y, size) := (p.at.x.Floor, p.at.y.Floor, Footprint(c[p.item].size.value, p.at.z));
                 && p.at.x == x as real && p.at.y == y as real && (p.at.z == 0.0 || p.at.z == 1.0)
                 && 0 <= x && x + size.width <= 10 && 0 <= y && y + size.height <= 8
                 && forall q, i, j ::
                      && q in placed && q.user == p.user && excluded != Some(q.publicId)
                      && q.item in c && c[q.item].size.Some?
                      && x <= i < x + size.width && y <= j < y + size.height
                      ==> !Covers(c, q, i, j)
  {
    var x, y := p.at.x.Floor, p.at.y.Floor;
    if WholeCoordinates(p.at) {
      var size := Footprint(c[p.item].size.value, p.at.z);
      RectIs(c, p);
      forall q | q in placed && q.user == p.user && q.item in c && c[q.item].size.Some?
        ensures Apart(c, p, q)
                <==> forall i, j :: x <= i < x + size.width && y <= j < y + size.height ==> !Covers(c, q, i, j)
      {
        ApartMeans(c, p, q);
      }
    }
    WallsMean(c, p);
    assert forall q :: q in placed && PlacedRect(c, q).Some? ==> q.item in c && c[q.item].size.Some?;
    assert forall q :: q in placed && !(q.item in c && c[q.item].size.Some?) ==> Apart(c, p, q);
    assert forall q :: q in placed && q.user != p.user ==> Apart(c, p, q);
    hide Apart, Cells, RectOk, Covers, RectOf, InsideRoom;
  }

  /** The walls of the room, as the service compares with them. */
  lemma {:induction false} WallsMean(c: Catalog, p: Placed)
    requires p.item in c && c[p.item].size.Some?
    ensures PlacedRect(c, p).Some?
    ensures WholeCoordinates(p.at) && InsideRoom(PlacedRect(c, p).value)
            <==> var (x, y, size) := (p.at.x.Floor, p.at.y.Floor, Footprint(c[p.item].size.value, p.at.z));
                 && p.at.x == x as real && p.at.y == y as real && (p.at.z == 0.0 || p.at.z == 1.0)
                 && 0 <= x && x + size.width <= 10 && 0 <= y && y + size.height <= 8
  {
    var x, y := p.at.x.Floor, p.at.y.Floor;
    assert IsWhole(p.at.x) <==> p.at.x == x as real;
    assert IsWhole(p.at.y) <==> p.at.y == y as real;
  }

  lemma {:induction false} RectIs(c: Catalog, p: Placed)
    requires p.item in c && c[p.item].size.Some? && (p.at.z == 0.0 || p.at.z == 1.0)
    ensures var size := Footprint(c[p.item].size.value, p.at.z);
            PlacedRect(c, p) == Some(Rect(p.at.x, p.at.y, size.width, size.height))
  {
  }

  lemma {:induction false} ApartMeans(c: Catalog, p: Placed, q: Placed)
    requires p.item in c && c[p.item].size.Some? && WholeCoordinates(p.at)
    requires RectOk(c, q) && c[q.item].size.Some? && p.user == q.user
    ensures var (x, y, size) := (p.at.x.Floor, p.at.y.Floor, Footprint(c[p.item].size.value, p.at.z));
            Apart(c, p, q)
            <==> forall i, j :: x <= i < x + size.width && y <= j < y + size.height ==> !Covers(c, q, i, j)
  {
    RectIs(c, p);
    RectIs(c, q);
    var a, b := PlacedRect(c, p).value, PlacedRect(c, q).value;
    hide RectOf, Cells;
    forall i, j
      ensures (i, j) in Cells(a)
              <==> a.x.Floor <= i < a.x.Floor + a.width && a.y.Floor <= j < a.y.Floor + a.height
      ensures (i, j) in Cells(b) <==> Covers(c, q, i, j)
    {
      InCells(a, i, j);
      InCells(b, i, j);
      WholeCovers(b.x, b.width, i);
      WholeCovers(b.y, b.height, j);
    }
    DisjointPairs(Cells(a), Cells(b));
    hide Covers;
  }

  lemma {:induction false} DisjointPairs(a: set<(int, int)>, b: set<(int, int)>)
    ensures a !! b <==> forall i, j :: !((i, j) in a && (i, j) in b)
  {
    if !(a !! b) {
      var k :| k in a && k in b;
      var (i, j) := k;
      assert k == (i, j);
      assert (i, j) in a && (i, j) in b;
    }
  }

  lemma {:induction false} WholeCovers(x: real, length: nat, i: int)
    requires IsWhole(x)
    ensures x.Floor <= i < x.Floor + length <==> x <= i as real && i as real + 1.0 <= x + length as real
  {
  }

  /** The cell (i, j) lies under the object. */
  predicate Covers(c: Catalog, q: Placed, i: int, j: int)
    requires q.item in c && c[q.item].size.Some?
  {
    var size := Footprint(c[q.item].size.value, q.at.z);
    q.at.x <= i as real && i as real + 1.0 <= q.at.x + size.width as real
    && q.at.y <= j as real && j as real + 1.0 <= q.at.y + size.height as real
  }

  // ----- Moving and starting -----

  /** A user's own object is moved exactly when the new place is free of the others; nothing else changes. */
  lemma {:induction false} MovedIffFree(c: Catalog, s: State, k: nat, at: Position)
    requires CatalogOk(c) && Sound(c, s) && k < |s.placed| && s.placed[k].user in s.users
    ensures var p := s.placed[k].(at := at);
            var (after, reply) := MoveStep(c, s, p.user, p.publicId, at);
            && (reply == Done <==> FreeFor(c, s.placed, p, Some(p.publicId)))
            && after == if reply == Done then s.(placed := s.placed[k := p]) else s
  {
    var p := s.placed[k].(at := at);
    assert RectOk(c, s.placed[k]);
    assert Find(s.placed, p.publicId) == Some(k);
    TroubleIsExact(c, s.placed, p, Some(p.publicId));
    TroubleIsNotDone(c, PlacedBy(s.placed, p.user), p.item, at, Some(p.publicId));
    hide PlacementTrouble, FreeFor, CatalogOk, Sound, RectOk;
  }

  /** Only the owner moves or removes an object, and only one that is there. */
  lemma {:induction false} OthersMayNot(c: Catalog, s: State, user: int, placementId: int, at: Position)
    requires forall p :: p in s.placed && p.publicId == placementId ==> p.user != user
    ensures MoveStep(c, s, user, placementId, at)
            == (s, if user in s.users then PlacementNotFound else UserNotFound)
    ensures RemoveStep(s, user, placementId) == (s, if user in s.users then PlacementNotFound else UserNotFound)
  {
    var found := Find(s.placed, placementId);
    assert found.Some? ==> s.placed[found.value] in s.placed;
  }

  /** What the starter pack holds of an item. */
  function StarterQuantity(item: string): nat {
    if item in {"furniture.table", "furniture.sofa", "furniture.catTower", "furniture.bed"} then 1
    else if item == "decor.plant" then 2
    else 0
  }

  /**
   The starter pack goes to a known user once. It gives one table, sofa, cat tower and bed and two
   plants, each only to who has no such item, and the five of the layout only to who has placed nothing.
   */
  lemma {:induction false} StartedExactly(s: State, user: int, ids: seq<int>, owner: int, item: string)
    requires FreshIds(s.placed, ids) && forall key :: key in s.owned ==> s.owned[key] >= 1
    ensures var (after, reply) := BootstrapStep(s, user, ids);
            && (reply == Done <==> user in s.users && user !in s.started)
            && (reply != Done ==> after == s)
            && (reply == Done ==>
                  && after.users == s.users && after.started == s.started + {user}
                  && Owned(after, owner, item)
                     == (if owner == user && Owned(s, user, item) == 0 then StarterQuantity(item)
                         else Owned(s, owner, item))
                  && after.placed
                     == s.placed + if exists p :: p in s.placed && p.user == user then []
                                   else [ Placed(ids[0], user, "furniture.table", Position(1.0, 1.0, 0.0)),
                                          Placed(ids[1], user, "furniture.sofa", Position(5.0, 1.0, 0.0)),
                                          Placed(ids[2], user, "decor.plant", Position(8.0, 2.0, 0.0)),
                                          Placed(ids[3], user, "furniture.catTower", Position(0.0, 5.0, 0.0)),
                                          Placed(ids[4], user, "furniture.bed", Position(6.0, 5.0, 0.0)) ])
  {
    PlacedByExactly(s.placed, user);
    PlacedBySome(s.placed, user);
    GrantedIs(s.owned, user, owner, item);
    StarterIs(user, ids);
    hide GrantStarter, StarterPlacements, PlacedBy, FreshIds;
  }

  lemma {:induction false} PlacedBySome(placed: seq<Placed>, user: int)
    ensures PlacedBy(placed, user) == [] <==> !exists p :: p in placed && p.user == user
  {
    PlacedByExactly(placed, user);
    hide PlacedBy;
    if PlacedBy(placed, user) != [] {
      assert PlacedBy(placed, user)[0] in PlacedBy(placed, user);
    }
  }

  lemma {:induction false} GrantStep(owned: map<(int, string), nat>, user: int, n: nat)
    requires n < |STARTER_ITEMS|
    ensures var (item, quantity) := STARTER_ITEMS[n];
            GrantStarter(owned, user, n + 1)
            == if (user, item) in GrantStarter(owned, user, n) then GrantStarter(owned, user, n)
               else GrantStarter(owned, user, n)[(user, item) := quantity]
  {
  }

  lemma {:induction false} GrantedIs(owned: map<(int, string), nat>, user: int, owner: int, item: string)
    ensures var after := GrantStarter(owned, user, |STARTER_ITEMS|);
            var key := (owner, item);
            && (key in owned ==> key in after && after[key] == owned[key])
            && (key !in owned && owner == user && StarterQuantity(item) > 0 ==>
                  key in after && after[key] == StarterQuantity(item))
            && (key !in owned && (owner != user || StarterQuantity(item) == 0) ==> key !in after)
  {
    assert GrantStarter(owned, user, 0) == owned;
    GrantStep(owned, user, 0);
    GrantStep(owned, user, 1);
    GrantStep(owned, user, 2);
    GrantStep(owned, user, 3);
    GrantStep(owned, user, 4);
    hide GrantStarter;
  }

  /** The owner of the object neither moves nor removes it. */
  ghost predicate LeavesAlone(events: seq<Event>, p: Placed) {
    && (forall e :: e in events && e.Move? ==> e.user != p.user || e.placementId != p.publicId)
    && (forall e :: e in events && e.Remove? ==> e.user != p.user || e.placementId != p.publicId)
  }

  /** The object is in the room, and its owner could have put it there. */
  ghost predicate Stands(c: Catalog, s: State, p: Placed) {
    p in s.placed && p.user in s.users && p.item in c && c[p.item].isFurniture
  }

  lemma {:induction false} MoveLeaves(c: Catalog, s: State, p: Placed, user: int, placementId: int, at: Position)
    requires DistinctIds(s.placed) && p in s.placed && (user != p.user || placementId != p.publicId)
    ensures p in MoveStep(c, s, user, placementId, at).0.placed
    ensures MoveStep(c, s, user, placementId, at).0.users == s.users
  {
    hide PlacementTrouble;
    var found := Find(s.placed, placementId);
    var k :| 0 <= k < |s.placed| && s.placed[k] == p;
    if MoveStep(c, s, user, placementId, at).1 == Done {
      assert MoveStep(c, s, user, placementId, at).0.placed[k] == p;
    }
  }

  lemma {:induction false} RemoveLeaves(s: State, p: Placed, user: int, placementId: int)
    requires DistinctIds(s.placed) && p in s.placed && (user != p.user || placementId != p.publicId)
    ensures p in RemoveStep(s, user, placementId).0.placed
    ensures RemoveStep(s, user, placementId).0.users == s.users
  {
    var found := Find(s.placed, placementId);
    var k :| 0 <= k < |s.placed| && s.placed[k] == p;
    if RemoveStep(s, user, placementId).1 == Done {
      var left := Without(s.placed, found.value);
      assert left[if k < found.value then k else k - 1] == p;
    }
  }

  lemma {:induction false} StepLeaves(c: Catalog, s: State, e: Event, p: Placed)
    requires DistinctIds(s.placed) && Stands(c, s, p) && LeavesAlone([e], p)
    ensures Stands(c, Step(c, s, e).0, p)
  {
    assert e in [e];
    match e
    case Move(user, placementId, at) => {
      MoveLeaves(c, s, p, user, placementId, at);
      hide MoveStep;
    }
    case Remove(user, placementId) => {
      RemoveLeaves(s, p, user, placementId);
      hide RemoveStep;
    }
    case _ => {
      hide PlacementTrouble, CountOf, PlacedBy, StarterPlacements, GrantStarter, FreshIds;
    }
  }

  lemma {:induction false} RunLeaves(c: Catalog, s: State, events: seq<Event>, p: Placed)
    requires CatalogOk(c) && Sound(c, s) && Stands(c, s, p) && LeavesAlone(events, p)
    ensures Stands(c, Run(c, s, events), p)
    decreases |events|
  {
    hide CatalogOk, LayoutOk, CountsOk, Stands, Step;
    if events != [] {
      StepKeeps(c, s, events[0]);
      StepLeaves(c, s, events[0], p);
      RunLeaves(c, Step(c, s, events[0]).0, events[1..], p);
    }
  }

  /** Finding the object under its id. */
  lemma {:induction false} StandsReplays(c: Catalog, s: State, p: Placed, generated: int)
    requires Stands(c, s, p) && DistinctIds(s.placed)
    ensures PlaceStep(c, s, p.user, p.item, p.at, Some(p.publicId), generated) == (s, Replayed)
  {
    hide NewPlacement;
  }

  /**
   A placement that went through, sent again under its id, changes nothing: after anything any user
   tries, as long as the owner neither moves nor removes the object.
   */
  lemma {:induction false} PlacingAgain(c: Catalog, s: State, p: Placed, generated: int, events: seq<Event>)
    requires CatalogOk(c) && Sound(c, s) && LeavesAlone(events, p)
    requires PlaceStep(c, s, p.user, p.item, p.at, Some(p.publicId), generated).1 == Done
    ensures var later := Run(c, PlaceStep(c, s, p.user, p.item, p.at, Some(p.publicId), generated).0, events);
            PlaceStep(c, later, p.user, p.item, p.at, Some(p.publicId), generated) == (later, Replayed)
  {
    var placed := PlaceStep(c, s, p.user, p.item, p.at, Some(p.publicId), generated).0;
    TroubleIsNotDone(c, PlacedBy(s.placed, p.user), p.item, p.at, None);
    StepKeeps(c, s, Place(p.user, p.item, p.at, Some(p.publicId), generated));
    hide CatalogOk, LayoutOk, CountsOk, PlacementTrouble, CountOf, PlacedBy, Run;
    assert Stands(c, placed, p);
    RunLeaves(c, placed, events, p);
    RunKeeps(c, placed, events);
    StandsReplays(c, Run(c, placed, events), p, generated);
  }

  /** An object may always be moved to where it is. */
  lemma {:induction false} MovingNowhere(c: Catalog, s: State, k: nat)
    requires CatalogOk(c) && Sound(c, s) && k < |s.placed| && s.placed[k].user in s.users
    ensures MoveStep(c, s, s.placed[k].user, s.placed[k].publicId, s.placed[k].at) == (s, Done)
  {
    var p := s.placed[k];
    TroubleIsExact(c, s.placed, p, Some(p.publicId));
    assert RectOk(c, p);
    hide PlacementTrouble, Cells, RectOf, CatalogOk;
    var found := Find(s.placed, p.publicId);
    assert found.value == k;
    forall q | q in s.placed && q.publicId != p.publicId
      ensures Apart(c, p, q)
    {
      var j :| 0 <= j < |s.placed| && s.placed[j] == q;
    }
    assert FreeFor(c, s.placed, p, Some(p.publicId));
    assert s.placed[k := p.(at := p.at)] == s.placed;
  }

  lemma {:induction false} CountRemoved(placed: seq<Placed>, k: nat)
    requires k < |placed|
    ensures CountOf(Without(placed, k), placed[k].user, placed[k].item)
            == CountOf(placed, placed[k].user, placed[k].item) - 1
  {
    var p := placed[k];
    CountSplit(placed, k, p.user, p.item);
    CountConcat(placed[..k], placed[k + 1..], p.user, p.item);
    CountOne(p, p.user, p.item);
    hide CountOf;
  }

  lemma {:induction false} RemovedIsGone(placed: seq<Placed>, k: nat)
    requires DistinctIds(placed) && k < |placed|
    ensures Find(Without(placed, k), placed[k].publicId).None?
    ensures forall q :: q in Without(placed, k) <==> q in placed && q.publicId != placed[k].publicId
  {
    var after := Without(placed, k);
    assert forall i :: 0 <= i < |after| ==> after[i] == placed[if i < k then i else i + 1];
    forall q | q in placed && q.publicId != placed[k].publicId
      ensures q in after
    {
      var i :| 0 <= i < |placed| && placed[i] == q;
      assert after[if i < k then i else i - 1] == q;
    }
  }

  lemma {:induction false} FreeAgain(c: Catalog, placed: seq<Placed>, k: nat)
    requires LayoutOk(c, placed) && DistinctIds(placed) && k < |placed|
    ensures FreeFor(c, Without(placed, k), placed[k], None)
  {
    RemovedIsGone(placed, k);
    assert RectOk(c, placed[k]);
    hide PlacedRect, Cells, OnGrid, WholeCoordinates;
    forall q | q in Without(placed, k)
      ensures Apart(c, placed[k], q)
    {
      var j :| 0 <= j < |placed| && placed[j] == q;
      assert Apart(c, placed[k], placed[j]);
    }
    GridIsInside(c, placed[k]);
  }

  lemma {:induction false} GridIsInside(c: Catalog, p: Placed)
    requires RectOk(c, p)
    ensures PlacedRect(c, p).Some? ==> WholeCoordinates(p.at) && InsideRoom(PlacedRect(c, p).value)
  {
    hide PlacedRect, InsideRoom;
  }

  /**
   Removing an object can be undone: what is left are all the others, and the same object may be placed again
   under its id.
   */
  lemma {:induction false} RemovedMayReturn(c: Catalog, s: State, k: nat, generated: int)
    requires CatalogOk(c) && Sound(c, s) && k < |s.placed|
    requires s.placed[k].user in s.users && c[s.placed[k].item].isFurniture
    ensures var (p, removed) := (s.placed[k], RemoveStep(s, s.placed[k].user, s.placed[k].publicId));
            && removed.1 == Done
            && (forall q :: q in removed.0.placed <==> q in s.placed && q != p)
            && PlaceStep(c, removed.0, p.user, p.item, p.at, Some(p.publicId), generated)
               == (removed.0.(placed := removed.0.placed + [p]), Done)
  {
    var p := s.placed[k];
    assert RectOk(c, p);
    RemoveKeeps(c, s, p.user, p.publicId);
    var found := Find(s.placed, p.publicId);
    assert found.value == k;
    var left := RemoveStep(s, p.user, p.publicId).0;
    assert left.placed == Without(s.placed, k);
    CountRemoved(s.placed, k);
    assert CountOf(s.placed, p.user, p.item) <= Owned(s, p.user, p.item);
    RemovedIsGone(s.placed, k);
    OtherIdOther(s.placed, k);
    FreeAgain(c, s.placed, k);
    hide RectOk, CatalogOk, LayoutOk, CountOf, FreeFor, DistinctIds, RemoveStep, Without, CountsOk;
    assert Sound(c, left);
    PlaceAfterRemoval(c, left, p, generated);
  }

  lemma {:induction false} OtherIdOther(placed: seq<Placed>, k: nat)
    requires DistinctIds(placed) && k < |placed|
    ensures forall q :: q in placed ==> (q.publicId != placed[k].publicId <==> q != placed[k])
  {
  }

  lemma {:induction false} PlaceAfterRemoval(c: Catalog, s: State, p: Placed, generated: int)
    requires CatalogOk(c) && Sound(c, s) && p.user in s.users && p.item in c
    requires c[p.item].isFurniture && Find(s.placed, p.publicId).None?
    requires CountOf(s.placed, p.user, p.item) < Owned(s, p.user, p.item) && FreeFor(c, s.placed, p, None)
    ensures PlaceStep(c, s, p.user, p.item, p.at, Some(p.publicId), generated) == (s.(placed := s.placed + [p]), Done)
  {
    TroubleIsExact(c, s.placed, p, None);
    hide PlacementTrouble, FreeFor, CountOf, PlacedBy, CatalogOk, Sound;
    assert p == Placed(p.publicId, p.user, p.item, p.at);
  }
}
