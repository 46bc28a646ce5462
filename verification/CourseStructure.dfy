/**
 The steps of one course: their order by position, the assign-time snapshot, and the two-phase
 renumbering that reordering and deleting a step share. Positions are unique within a course;
 every position update is checked against that constraint on its own.
 */
module CourseStructure {
  import opened Common
  import opened Lists

  /** `list_by_program_id` reads at most this many steps, in position order. */
  const LIST_LIMIT := 1000

  datatype Kind = Content | Task | Quiz | Ack

  datatype Step = Step(position: nat, kind: Kind, required: bool, content: string, title: string)

  type Steps = map<Uuid, Step>

  /** What a revision number stands for: everything about a step but its title. */
  datatype Shape = Shape(position: nat, kind: Kind, required: bool, content: string)

  datatype SnapStep = SnapStep(id: Uuid, title: string, shape: Shape)

  function ShapeOf(step: Step): Shape {
    Shape(step.position, step.kind, step.required, step.content)
  }

  function Shapes(steps: Steps): map<Uuid, Shape> {
    map id | id in steps :: ShapeOf(steps[id])
  }

  ghost predicate UniquePositions(steps: Steps) {
    forall a, b :: a in steps && b in steps && steps[a].position == steps[b].position ==> a == b
  }

  // ---------- the order by position ----------

  ghost predicate IsOrder(steps: Steps, order: seq<Uuid>) {
    && (forall i :: 0 <= i < |order| ==> order[i] in steps)
    && (forall id :: id in steps ==> id in order)
    && (forall i, j :: 0 <= i < j < |order| ==> steps[order[i]].position < steps[order[j]].position)
  }

  lemma {:induction false} LastStepExists(steps: Steps, ids: set<Uuid>) returns (last: Uuid)
    requires ids != {} && forall id :: id in ids ==> id in steps
    ensures last in ids && forall id :: id in ids ==> steps[id].position <= steps[last].position
    decreases |ids|
  {
    last :| last in ids;
    if ids != {last} {
      var other := LastStepExists(steps, ids - {last});
      if steps[other].position > steps[last].position {
        last := other;
      }
    }
  }

  lemma OrderExtends(steps: Steps, last: Uuid, front: seq<Uuid>)
    requires UniquePositions(steps) && last in steps && forall id :: id in steps ==> steps[id].position <= steps[last].position
    requires IsOrder(steps - {last}, front)
    ensures IsOrder(steps, front + [last])
  {
    var order := front + [last];
    forall i | 0 <= i < |front| ensures front[i] in steps && steps[front[i]].position < steps[last].position {
      assert front[i] in steps - {last};
    }
    assert forall id :: id in order <==> id in front || id == last;
  }

  lemma {:induction false} OrderExists(steps: Steps)
    requires UniquePositions(steps)
    ensures exists order :: IsOrder(steps, order)
    decreases |steps|
  {
    if |steps| == 0 {
      assert IsOrder(steps, []);
    } else {
      assert steps.Keys != {};
      var last := LastStepExists(steps, steps.Keys);
      var rest := steps - {last};
      assert rest.Keys == steps.Keys - {last};
      OrderExists(rest);
      var front :| IsOrder(rest, front);
      OrderExtends(steps, last, front);
    }
  }

  lemma {:induction false} OrderIsUnique(steps: Steps, a: seq<Uuid>, b: seq<Uuid>)
    requires IsOrder(steps, a) && IsOrder(steps, b)
    ensures a == b
    decreases |a|
  {
    hide IsOrder;
    SameLast(steps, a, b);
    if a != [] {
      var last := a[|a| - 1];
      DropLast(steps, a);
      DropLast(steps, b);
      OrderIsUnique(steps - {last}, a[..|a| - 1], b[..|b| - 1]);
      assert a == a[..|a| - 1] + [last] && b == b[..|b| - 1] + [last];
    }
  }

  lemma SameLast(steps: Steps, a: seq<Uuid>, b: seq<Uuid>)
    requires IsOrder(steps, a) && IsOrder(steps, b)
    ensures a == [] <==> b == []
    ensures a != [] ==> a[|a| - 1] == b[|b| - 1]
  {
    assert a != [] ==> a[|a| - 1] in b;
    assert b != [] ==> b[|b| - 1] in a;
  }

  lemma DropLast(steps: Steps, order: seq<Uuid>)
    requires IsOrder(steps, order) && order != []
    ensures IsOrder(steps - {order[|order| - 1]}, order[..|order| - 1])
  {
    var last := order[|order| - 1];
    var front := order[..|order| - 1];
    forall i | 0 <= i < |front| ensures front[i] in steps - {last} {
      assert steps[order[i]].position < steps[last].position;
    }
    forall id | id in steps - {last} ensures id in front {
      var k :| 0 <= k < |order| && order[k] == id;
      assert front[k] == id;
    }
  }

  /** The ids by position; positions are unique in every course that can occur. */
  ghost function Order(steps: Steps): (order: seq<Uuid>)
    ensures UniquePositions(steps) ==> IsOrder(steps, order)
    ensures !UniquePositions(steps) ==> order == []
  {
    if UniquePositions(steps) then
      OrderExists(steps);
      var order :| IsOrder(steps, order); order
    else []
  }

  lemma OrderCounts(steps: Steps)
    requires UniquePositions(steps)
    ensures |Order(steps)| == |steps|
  {
    var order := Order(steps);
    assert Distinct(order);
    DistinctCount(order);
    assert Elements(order) == steps.Keys;
  }

  /** The steps the application reads: at most the first thousand. */
  ghost function Listed(steps: Steps): (listed: seq<Uuid>)
    ensures Distinct(listed) && forall i :: 0 <= i < |listed| ==> listed[i] in steps
  {
    Order(steps)[..Min(|Order(steps)|, LIST_LIMIT)]
  }

  /** The order is a matter of shapes alone: titles do not move anything. */
  lemma ShapesGiveTheOrder(a: Steps, b: Steps)
    requires UniquePositions(a) && Shapes(a) == Shapes(b)
    ensures UniquePositions(b) && Order(a) == Order(b) && Listed(a) == Listed(b)
  {
    assert a.Keys == Shapes(a).Keys && b.Keys == Shapes(b).Keys;
    forall id | id in a ensures id in b && a[id].position == b[id].position {
      assert id in Shapes(a);
      assert Shapes(a)[id] == Shapes(b)[id];
    }
    assert IsOrder(b, Order(a));
    OrderIsUnique(b, Order(a), Order(b));
  }

  // ---------- the snapshot ----------

  function SnapOf(id: Uuid, step: Step): SnapStep {
    SnapStep(id, step.title, ShapeOf(step))
  }

  /** `build_structure_snapshot` over the listed steps. */
  ghost function Snapshot(steps: Steps): (snapshot: seq<SnapStep>)
    ensures |snapshot| == |Listed(steps)|
    ensures forall i :: 0 <= i < |snapshot| ==> snapshot[i] == SnapOf(Listed(steps)[i], steps[Listed(steps)[i]])
  {
    var listed := Listed(steps);
    seq(|listed|, i requires 0 <= i < |listed| => SnapOf(listed[i], steps[listed[i]]))
  }

  /** What two snapshots of one revision have in common: ids and shapes, in order. */
  predicate SameStructure(a: seq<SnapStep>, b: seq<SnapStep>) {
    |a| == |b| && forall i :: 0 <= i < |a| ==> a[i].id == b[i].id && a[i].shape == b[i].shape
  }

  lemma ShapesGiveTheSnapshot(a: Steps, b: Steps)
    requires UniquePositions(a) && Shapes(a) == Shapes(b)
    ensures UniquePositions(b) && SameStructure(Snapshot(a), Snapshot(b))
  {
    ShapesGiveTheOrder(a, b);
    forall i | 0 <= i < |Listed(a)| ensures Snapshot(a)[i].shape == Snapshot(b)[i].shape {
      assert Shapes(a)[Listed(a)[i]] == Shapes(b)[Listed(a)[i]];
    }
  }

  // ---------- renumbering ----------

  /** The first `n` of `ids` moved to consecutive positions from `base` on. */
  function PlacedUpTo(steps: Steps, ids: seq<Uuid>, base: nat, n: nat): (placed: Steps)
    requires n <= |ids| && forall i :: 0 <= i < |ids| ==> ids[i] in steps
    ensures placed.Keys == steps.Keys
  {
    if n == 0 then steps
    else
      var before := PlacedUpTo(steps, ids, base, n - 1);
      before[ids[n - 1] := before[ids[n - 1]].(position := base + n - 1)]
  }

  function Placed(steps: Steps, ids: seq<Uuid>, base: nat): (placed: Steps)
    requires forall i :: 0 <= i < |ids| ==> ids[i] in steps
    ensures placed.Keys == steps.Keys
  {
    PlacedUpTo(steps, ids, base, |ids|)
  }

  lemma {:induction false} PlacedUpToKeeps(steps: Steps, ids: seq<Uuid>, base: nat, n: nat, id: Uuid)
    requires n <= |ids| && forall i :: 0 <= i < |ids| ==> ids[i] in steps
    requires id in steps && forall i :: 0 <= i < n ==> ids[i] != id
    ensures PlacedUpTo(steps, ids, base, n)[id] == steps[id]
  {
    if n > 0 {
      PlacedUpToKeeps(steps, ids, base, n - 1, id);
    }
  }

  lemma {:induction false} PlacedUpToMoves(steps: Steps, ids: seq<Uuid>, base: nat, n: nat, i: nat)
    requires i < n <= |ids| && Distinct(ids) && forall i :: 0 <= i < |ids| ==> ids[i] in steps
    ensures PlacedUpTo(steps, ids, base, n)[ids[i]] == steps[ids[i]].(position := base + i)
  {
    if i < n - 1 {
      PlacedUpToMoves(steps, ids, base, n - 1, i);
    } else {
      PlacedUpToKeeps(steps, ids, base, n - 1, ids[i]);
    }
  }

  lemma PlacedMeans(steps: Steps, ids: seq<Uuid>, base: nat)
    requires Distinct(ids) && forall i :: 0 <= i < |ids| ==> ids[i] in steps
    ensures forall i :: 0 <= i < |ids| ==> Placed(steps, ids, base)[ids[i]] == steps[ids[i]].(position := base + i)
    ensures forall id :: id in steps && id !in ids ==> Placed(steps, ids, base)[id] == steps[id]
  {
    hide PlacedUpTo;
    forall i | 0 <= i < |ids| ensures Placed(steps, ids, base)[ids[i]] == steps[ids[i]].(position := base + i) {
      PlacedUpToMoves(steps, ids, base, |ids|, i);
    }
    forall id | id in steps && id !in ids ensures Placed(steps, ids, base)[id] == steps[id] {
      PlacedUpToKeeps(steps, ids, base, |ids|, id);
    }
  }

  lemma PlacingTwiceIsPlacingLast(steps: Steps, ids: seq<Uuid>, first: nat, second: nat)
    requires Distinct(ids) && forall i :: 0 <= i < |ids| ==> ids[i] in steps
    ensures Placed(Placed(steps, ids, first), ids, second) == Placed(steps, ids, second)
  {
    hide Placed;
    var once := Placed(steps, ids, first);
    PlacedMeans(steps, ids, first);
    PlacedMeans(once, ids, second);
    PlacedMeans(steps, ids, second);
    forall id | id in steps ensures Placed(once, ids, second)[id] == Placed(steps, ids, second)[id] {
      if id in ids {
        var i :| 0 <= i < |ids| && ids[i] == id;
      }
    }
  }

  /** The highest position among the first `n` of `ids`, or -1. */
  function MaxPosition(steps: Steps, ids: seq<Uuid>, n: nat): (max: int)
    requires n <= |ids| && forall i :: 0 <= i < |ids| ==> ids[i] in steps
    ensures max >= -1
    ensures forall i :: 0 <= i < n ==> steps[ids[i]].position <= max
  {
    if n == 0 then -1 else Max(MaxPosition(steps, ids, n - 1), steps[ids[n - 1]].position)
  }

  /** Where the first phase parks the listed steps. */
  function TempBase(steps: Steps, ids: seq<Uuid>): nat
    requires forall i :: 0 <= i < |ids| ==> ids[i] in steps
  {
    MaxPosition(steps, ids, |ids|) + 1 + |ids|
  }

  /** `ids` names exactly the listed steps, in whatever order. */
  ghost predicate IsListing(steps: Steps, ids: seq<Uuid>) {
    Distinct(ids) && Elements(ids) == Elements(Listed(steps))
  }

  /** A step outside `ids` holds the position. */
  predicate Taken(steps: Steps, ids: seq<Uuid>, position: int) {
    exists id :: id in steps && id !in ids && steps[id].position == position
  }

  predicate Free(steps: Steps, ids: seq<Uuid>, base: nat, n: nat) {
    forall position :: base <= position < base + n ==> !Taken(steps, ids, position)
  }

  /** A step beyond the listing limit stands where the first phase wants to park a listed one. */
  predicate Clash(steps: Steps, ids: seq<Uuid>)
    requires forall i :: 0 <= i < |ids| ==> ids[i] in steps
  {
    !Free(steps, ids, TempBase(steps, ids), |ids|)
  }

  lemma {:induction false} PositionsGrow(steps: Steps, order: seq<Uuid>, k: nat)
    requires IsOrder(steps, order) && k < |order|
    ensures steps[order[k]].position >= k
  {
    if k > 0 {
      PositionsGrow(steps, order, k - 1);
      assert steps[order[k - 1]].position < steps[order[k]].position;
    }
  }

  lemma ListingCounts(steps: Steps, ids: seq<Uuid>)
    requires UniquePositions(steps) && IsListing(steps, ids)
    ensures |ids| == |Listed(steps)| && forall i :: 0 <= i < |ids| ==> ids[i] in steps
    ensures Distinct(ids) && forall id :: id in ids <==> id in Listed(steps)
  {
    hide Listed, Distinct;
    DistinctCount(ids);
    DistinctCount(Listed(steps));
    forall id ensures id in ids <==> id in Listed(steps) {
      assert id in ids <==> id in Elements(ids);
      assert id in Listed(steps) <==> id in Elements(Listed(steps));
    }
    forall i | 0 <= i < |ids| ensures ids[i] in steps {
      assert ids[i] in Listed(steps);
    }
  }

  /** The steps at and after the listing limit come after every listed one. */
  lemma UnlistedMeans(steps: Steps, ids: seq<Uuid>, at: nat)
    requires UniquePositions(steps) && IsListing(steps, ids) && |ids| <= at < |Order(steps)|
    ensures |ids| == LIST_LIMIT < |steps|
    ensures Order(steps)[at] in steps && Order(steps)[at] !in ids
    ensures steps[Order(steps)[at]].position >= |ids|
    ensures forall k :: 0 <= k < |ids| ==> ids[k] in steps && steps[ids[k]].position < steps[Order(steps)[at]].position
  {
    hide Distinct, UniquePositions, IsListing, Order;
    var order, listed := Order(steps), Listed(steps);
    ListingCounts(steps, ids);
    OrderCounts(steps);
    PositionsGrow(steps, order, at);
    forall id | id in ids ensures id in steps && steps[id].position < steps[order[at]].position {
      var j :| 0 <= j < |listed| && listed[j] == id;
      assert order[j] == id;
    }
  }

  lemma PlaceInOrder(steps: Steps, ids: seq<Uuid>, id: Uuid) returns (at: nat)
    requires UniquePositions(steps) && IsListing(steps, ids) && id in steps && id !in ids
    ensures |ids| <= at < |Order(steps)| && Order(steps)[at] == id
  {
    hide Distinct, UniquePositions, IsListing, Order;
    var order := Order(steps);
    ListingCounts(steps, ids);
    at :| 0 <= at < |order| && order[at] == id;
    assert forall j :: 0 <= j < |Listed(steps)| ==> Listed(steps)[j] == order[j] && Listed(steps)[j] in ids;
  }

  lemma UnlistedComeLater(steps: Steps, ids: seq<Uuid>, id: Uuid)
    requires UniquePositions(steps) && IsListing(steps, ids) && id in steps && id !in ids
    ensures |ids| == LIST_LIMIT < |steps| && steps[id].position >= |ids|
    ensures forall i :: 0 <= i < |ids| ==> ids[i] in steps && steps[ids[i]].position < steps[id].position
  {
    hide IsListing, UniquePositions, Order;
    var at := PlaceInOrder(steps, ids, id);
    UnlistedMeans(steps, ids, at);
  }

  /** The order with the listed steps rearranged and the others left where they are. */
  ghost function Reordered(steps: Steps, ids: seq<Uuid>): (order: seq<Uuid>)
    requires |ids| <= |Order(steps)|
    ensures |order| == |Order(steps)|
  {
    seq(|Order(steps)|, k requires 0 <= k < |Order(steps)| => if k < |ids| then ids[k] else Order(steps)[k])
  }

  lemma ReorderedPosition(steps: Steps, ids: seq<Uuid>, k: nat)
    requires UniquePositions(steps) && IsListing(steps, ids) && forall i :: 0 <= i < |ids| ==> ids[i] in steps
    requires |ids| <= |Order(steps)| && k < |Order(steps)|
    ensures Reordered(steps, ids)[k] in steps && Order(steps)[k] in steps
    ensures Placed(steps, ids, 0)[Reordered(steps, ids)[k]].position == if k < |ids| then k else steps[Order(steps)[k]].position
    ensures k >= |ids| ==> steps[Order(steps)[k]].position >= |ids|
  {
    hide Placed, Distinct, UniquePositions, IsListing, Order;
    ListingCounts(steps, ids);
    PlacedMeans(steps, ids, 0);
    if k >= |ids| {
      UnlistedMeans(steps, ids, k);
    }
  }

  lemma ReorderedCovers(steps: Steps, ids: seq<Uuid>, id: Uuid)
    requires UniquePositions(steps) && IsListing(steps, ids) && id in steps && |ids| <= |Order(steps)|
    ensures id in Reordered(steps, ids)
  {
    hide Placed, Distinct, UniquePositions, IsListing, Order;
    if id in ids {
      var k :| 0 <= k < |ids| && ids[k] == id;
      assert Reordered(steps, ids)[k] == id;
    } else {
      var at := PlaceInOrder(steps, ids, id);
      assert Reordered(steps, ids)[at] == id;
    }
  }

  lemma RenumberedOrder(steps: Steps, ids: seq<Uuid>)
    requires UniquePositions(steps) && IsListing(steps, ids) && forall i :: 0 <= i < |ids| ==> ids[i] in steps
    requires |ids| <= |Order(steps)|
    ensures IsOrder(Placed(steps, ids, 0), Reordered(steps, ids))
  {
    hide Placed, Distinct, UniquePositions, IsListing, Order, Reordered;
    var placed, order := Placed(steps, ids, 0), Reordered(steps, ids);
    forall i, j | 0 <= i < j < |order|
      ensures order[i] in placed && order[j] in placed && placed[order[i]].position < placed[order[j]].position
    {
      ReorderedPosition(steps, ids, i);
      ReorderedPosition(steps, ids, j);
    }
    forall i | 0 <= i < |order| ensures order[i] in placed {
      ReorderedPosition(steps, ids, i);
    }
    forall id | id in placed ensures id in order {
      ReorderedCovers(steps, ids, id);
    }
  }

  /** After renumbering, reading the course gives the requested order, with nothing lost. */
  lemma RenumberedReadsBack(steps: Steps, ids: seq<Uuid>)
    requires UniquePositions(steps) && IsListing(steps, ids)
    ensures |ids| <= |Order(steps)| && forall i :: 0 <= i < |ids| ==> ids[i] in steps
    ensures UniquePositions(Placed(steps, ids, 0)) && Listed(Placed(steps, ids, 0)) == ids
    ensures Order(Placed(steps, ids, 0)) == Reordered(steps, ids)
  {
    hide Placed, IsOrder, UniquePositions, Order;
    ListingCounts(steps, ids);
    RenumberedOrder(steps, ids);
    var placed, order := Placed(steps, ids, 0), Reordered(steps, ids);
    OrderedIsUnique(placed, order);
    OrderIsUnique(placed, order, Order(placed));
  }

  lemma OrderedIsUnique(steps: Steps, order: seq<Uuid>)
    requires IsOrder(steps, order)
    ensures UniquePositions(steps)
  {
    forall a, b | a in steps && b in steps && steps[a].position == steps[b].position ensures a == b {
      var i :| 0 <= i < |order| && order[i] == a;
      var j :| 0 <= j < |order| && order[j] == b;
    }
  }

  /** The unique constraint lets `id` move to the position. */
  predicate Available(steps: Steps, id: Uuid, position: int) {
    forall other :: other in steps && other != id ==> steps[other].position != position
  }

  /** One `UPDATE steps SET position`, under the unique constraint. */
  method SetPosition(steps: Steps, id: Uuid, position: nat) returns (r: Result<Steps>)
    requires id in steps
    ensures r.Ok? <==> Available(steps, id, position)
    ensures r.Ok? ==> r.value == steps[id := steps[id].(position := position)]
    ensures r.Err? ==> r.error == Integrity
  {
    if !Available(steps, id, position) {
      return Err(Integrity);
    }
    r := Ok(steps[id := steps[id].(position := position)]);
  }

  /** Only a step outside the list can hold the position the next listed step is moved to. */
  lemma HolderIsUnlisted(steps: Steps, ids: seq<Uuid>, base: nat, i: nat, other: Uuid)
    requires Distinct(ids) && i < |ids| && forall k :: 0 <= k < |ids| ==> ids[k] in steps
    requires forall k :: 0 <= k < |ids| ==> !(base <= steps[ids[k]].position < base + |ids|)
    requires other in steps && other != ids[i]
    ensures PlacedUpTo(steps, ids, base, i)[other].position == base + i <==> other !in ids && steps[other].position == base + i
  {
    hide PlacedUpTo;
    if other !in ids {
      PlacedUpToKeeps(steps, ids, base, i, other);
    } else {
      var k :| 0 <= k < |ids| && ids[k] == other;
      if k < i {
        PlacedUpToMoves(steps, ids, base, i, k);
      } else {
        PlacedUpToKeeps(steps, ids, base, i, other);
      }
    }
  }

  lemma PlaceStep(steps: Steps, ids: seq<Uuid>, base: nat, i: nat)
    requires Distinct(ids) && i < |ids| && forall k :: 0 <= k < |ids| ==> ids[k] in steps
    requires forall k :: 0 <= k < |ids| ==> !(base <= steps[ids[k]].position < base + |ids|)
    ensures Free(steps, ids, base, i + 1)
       <==> Free(steps, ids, base, i) && Available(PlacedUpTo(steps, ids, base, i), ids[i], base + i)
    ensures Free(steps, ids, base, |ids|) ==> Free(steps, ids, base, i + 1)
  {
    hide PlacedUpTo, Distinct;
    var current := PlacedUpTo(steps, ids, base, i);
    forall other | other in current && other != ids[i]
      ensures current[other].position == base + i <==> other !in ids && steps[other].position == base + i
    {
      HolderIsUnlisted(steps, ids, base, i, other);
    }
    assert forall other :: other in steps && other !in ids ==> other != ids[i];
    assert Free(steps, ids, base, i + 1) <==> Free(steps, ids, base, i) && !Taken(steps, ids, base + i);
  }

  lemma NothingTaken(steps: Steps, ids: seq<Uuid>, base: nat)
    ensures Free(steps, ids, base, 0)
  {
  }

  /** One phase: move the listed steps to consecutive positions that no listed step holds. */
  method Place(steps: Steps, ids: seq<Uuid>, base: nat) returns (r: Result<Steps>)
    requires Distinct(ids) && forall i :: 0 <= i < |ids| ==> ids[i] in steps
    requires forall i :: 0 <= i < |ids| ==> !(base <= steps[ids[i]].position < base + |ids|)
    ensures r.Ok? <==> Free(steps, ids, base, |ids|)
    ensures r.Ok? ==> r.value == Placed(steps, ids, base)
    ensures r.Err? ==> r.error == Integrity
  {
    hide Free, Distinct, Available;
    var current := steps;
    assert Free(steps, ids, base, 0) by {
      NothingTaken(steps, ids, base);
    }
    for i := 0 to |ids|
      invariant current == PlacedUpTo(steps, ids, base, i)
      invariant Free(steps, ids, base, i)
    {
      PlaceStep(steps, ids, base, i);
      var updated := SetPosition(current, ids[i], base + i);
      if updated.Err? {
        return updated;
      }
      current := updated.value;
    }
    r := Ok(current);
  }

  /** After the first phase the second one cannot fail, and it alone decides the outcome. */
  lemma ParkedIsReady(steps: Steps, ids: seq<Uuid>, base: nat)
    requires UniquePositions(steps) && IsListing(steps, ids) && base >= |ids|
    requires forall i :: 0 <= i < |ids| ==> ids[i] in steps
    ensures var parked := Placed(steps, ids, base);
      && Free(parked, ids, 0, |ids|)
      && (forall i :: 0 <= i < |ids| ==> parked[ids[i]].position >= |ids|)
      && Placed(parked, ids, 0) == Placed(steps, ids, 0)
  {
    hide Placed, Distinct, IsListing, UniquePositions;
    ListingCounts(steps, ids);
    PlacedMeans(steps, ids, base);
    var parked := Placed(steps, ids, base);
    forall id | id in steps && id !in ids ensures parked[id].position >= |ids| {
      UnlistedComeLater(steps, ids, id);
    }
    PlacingTwiceIsPlacingLast(steps, ids, base, 0);
  }

  method HighestPosition(steps: Steps, ids: seq<Uuid>) returns (max: int)
    requires forall i :: 0 <= i < |ids| ==> ids[i] in steps
    ensures max == MaxPosition(steps, ids, |ids|)
  {
    max := -1;
    for i := 0 to |ids|
      invariant max == MaxPosition(steps, ids, i)
    {
      max := Max(max, steps[ids[i]].position);
    }
  }

  /** The two phases: fails exactly when an unlisted step is in the way of the parking positions. */
  method Renumber(steps: Steps, ids: seq<Uuid>) returns (r: Result<Steps>)
    requires UniquePositions(steps) && IsListing(steps, ids)
    ensures forall i :: 0 <= i < |ids| ==> ids[i] in steps
    ensures r.Ok? <==> !Clash(steps, ids)
    ensures r.Ok? ==> r.value == Placed(steps, ids, 0)
    ensures r.Err? ==> r.error == Integrity
  {
    hide Placed, Distinct, IsListing, UniquePositions, Free;
    ListingCounts(steps, ids);
    var max := HighestPosition(steps, ids);
    var base := max + 1 + |ids|;
    ParkedIsReady(steps, ids, base);
    r := Place(steps, ids, base);
    if r.Ok? {
      r := Place(r.value, ids, 0);
    }
  }

  /** Up to a thousand steps the two phases never run into the unique constraint. */
  lemma ShortCoursesNeverClash(steps: Steps, ids: seq<Uuid>)
    requires UniquePositions(steps) && IsListing(steps, ids) && |steps| <= LIST_LIMIT
    ensures (forall i :: 0 <= i < |ids| ==> ids[i] in steps) && !Clash(steps, ids)
  {
    ListingCounts(steps, ids);
    OrderCounts(steps);
    forall id | id in steps ensures id in ids {
      assert Listed(steps) == Order(steps);
    }
  }

  function Numbered(n: nat): Steps {
    map id: Uuid | 0 <= id < n :: Step(id, Content, true, "", "")
  }

  lemma NumberedOrder(n: nat)
    ensures UniquePositions(Numbered(n)) && Order(Numbered(n)) == seq(n, i requires 0 <= i < n => i)
  {
    var order := seq(n, i requires 0 <= i < n => i);
    forall id | id in Numbered(n) ensures id in order {
      assert order[id] == id;
    }
    OrderIsUnique(Numbered(n), order, Order(Numbered(n)));
  }

  /** The limit matters: a course with positions 0 to 2000 can no longer be reordered. */
  lemma LongCourseClashes(ids: seq<Uuid>)
    requires UniquePositions(Numbered(2001)) && IsListing(Numbered(2001), ids)
    ensures (forall i :: 0 <= i < |ids| ==> ids[i] in Numbered(2001)) && Clash(Numbered(2001), ids)
  {
    hide Distinct, UniquePositions, IsListing, IsOrder;
    var steps := Numbered(2001);
    NumberedOrder(2001);
    ListingCounts(steps, ids);
    var listed := Listed(steps);
    assert listed[999] == 999 && 999 in ids;
    var k :| 0 <= k < |ids| && ids[k] == 999;
    forall i | 0 <= i < |ids| ensures ids[i] in steps && steps[ids[i]].position <= 999 {
      assert ids[i] in listed;
    }
    HighestIs(steps, ids, |ids|, 999);
    assert 2000 in steps && 2000 !in ids && steps[2000].position == 2000;
    assert Taken(steps, ids, 2000);
  }

  lemma {:induction false} HighestIs(steps: Steps, ids: seq<Uuid>, n: nat, top: int)
    requires n <= |ids| && top >= -1 && forall i :: 0 <= i < |ids| ==> ids[i] in steps && steps[ids[i]].position <= top
    ensures MaxPosition(steps, ids, n) <= top
  {
    if n > 0 {
      HighestIs(steps, ids, n - 1, top);
    }
  }

  /** The position a new step gets when none is asked for. */
  ghost function NextPosition(steps: Steps): (position: nat)
    ensures UniquePositions(steps) ==> forall id :: id in steps ==> steps[id].position < position
  {
    var order := Order(steps);
    if order == [] then 0
    else
      assert UniquePositions(steps);
      assert forall id :: id in steps ==> id in order;
      steps[order[|order| - 1]].position + 1
  }

  method MaxPositionPlusOne(steps: Steps) returns (position: nat)
    requires UniquePositions(steps)
    ensures position == NextPosition(steps)
  {
    ghost var order := Order(steps);
    if |steps| == 0 {
      assert order == [];
      return 0;
    }
    assert steps.Keys != {};
    ghost var highest := LastStepExists(steps, steps.Keys);
    var last :| last in steps && forall id :: id in steps ==> steps[id].position <= steps[last].position;
    assert last in order;
    position := steps[last].position + 1;
  }

  /** `rest` is the course without the first `n` steps of its order. */
  ghost predicate IsRest(steps: Steps, rest: Steps, n: nat) {
    && n <= |Order(steps)|
    && (forall k :: n <= k < |Order(steps)| ==> Order(steps)[k] in rest)
    && (forall id :: id in rest ==> id in steps && rest[id] == steps[id])
    && (forall k :: 0 <= k < n ==> Order(steps)[k] !in rest)
  }

  lemma RestStep(steps: Steps, rest: Steps, n: nat, next: Uuid)
    requires UniquePositions(steps) && IsRest(steps, rest, n)
    requires next in rest && forall id :: id in rest ==> rest[next].position <= rest[id].position
    ensures n < |Order(steps)| && next == Order(steps)[n] && IsRest(steps, rest - {next}, n + 1)
  {
    hide UniquePositions, Order;
    var order := Order(steps);
    var k :| 0 <= k < |order| && order[k] == next;
    assert order[n] in rest;
    assert forall j :: n < j < |order| ==> order[j] != next;
  }

  lemma RestIsEmptyAtTheEnd(steps: Steps, rest: Steps, n: nat)
    requires UniquePositions(steps) && IsRest(steps, rest, n)
    ensures |rest| == 0 <==> n == |Order(steps)|
  {
    hide UniquePositions, Order;
    var order := Order(steps);
    if n < |order| {
      assert order[n] in rest;
    } else {
      forall id | id in steps ensures id !in rest {
        var k :| 0 <= k < |order| && order[k] == id;
      }
      assert rest == map[];
    }
  }

  /** `SELECT ... ORDER BY position LIMIT 1000`. */
  method ListByProgram(steps: Steps) returns (listed: seq<Uuid>)
    requires UniquePositions(steps)
    ensures listed == Listed(steps)
  {
    hide UniquePositions, IsRest, Order, IsOrder;
    listed := [];
    var rest := steps;
    WholeIsRest(steps);
    while |listed| < LIST_LIMIT && |rest| > 0
      invariant |listed| <= LIST_LIMIT && |listed| <= |Order(steps)| && listed == Order(steps)[..|listed|]
      invariant IsRest(steps, rest, |listed|)
      decreases LIST_LIMIT - |listed|
    {
      assert rest.Keys != {};
      ghost var first := FirstStepExists(rest, rest.Keys);
      var next :| next in rest && forall id :: id in rest ==> rest[next].position <= rest[id].position;
      RestStep(steps, rest, |listed|, next);
      listed := listed + [next];
      rest := rest - {next};
    }
    RestIsEmptyAtTheEnd(steps, rest, |listed|);
  }

  lemma WholeIsRest(steps: Steps)
    requires UniquePositions(steps)
    ensures IsRest(steps, steps, 0)
  {
    hide UniquePositions, Order;
  }

  lemma {:induction false} FirstStepExists(steps: Steps, ids: set<Uuid>) returns (first: Uuid)
    requires ids != {} && forall id :: id in ids ==> id in steps
    ensures first in ids && forall id :: id in ids ==> steps[first].position <= steps[id].position
    decreases |ids|
  {
    first :| first in ids;
    if ids != {first} {
      var other := FirstStepExists(steps, ids - {first});
      if steps[other].position < steps[first].position {
        first := other;
      }
    }
  }
}
