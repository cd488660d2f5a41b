/** Slots of game centers: the search for a free slot in src/use_cases/arcade_machine_usecase.ts, and why
    installs on stale reads never overfill a center. */
module ArcadeSlots {
  import opened Collections
  import opened Common

  type Id = nat

  datatype Size = SMALL | MEDIUM | LARGE

  function GetCapacity(size: Size): nat {
    match size
    case SMALL => 4
    case MEDIUM => 16
    case LARGE => 64
  }

  /** Positions in ascending order, rows without a position last. */
  ghost predicate Ascending(positions: seq<Option<int>>) {
    && (forall i :: 0 <= i < |positions| && positions[i].Some? ==> positions[i].value >= 1)
    && (forall i, j :: 0 <= i < j < |positions| && positions[j].Some? ==>
          positions[i].Some? && positions[i].value < positions[j].value)
  }

  /** The least positive number not in use; with n rows it is at most n + 1. */
  method FindSlot(positions: seq<Option<int>>) returns (position: int)
    requires Ascending(positions)
    ensures 1 <= position <= |positions| + 1
    ensures Some(position) !in positions
    ensures forall p :: 1 <= p < position ==> Some(p) in positions
  {
    position := 1;
    for i := 0 to |positions|
      invariant 1 <= position <= i + 1
      invariant forall p :: 1 <= p < position ==> Some(p) in positions
      invariant forall k :: 0 <= k < i && positions[k].Some? ==> positions[k].value < position
      invariant i < |positions| && positions[i].Some? ==> positions[i].value >= position
    {
      if positions[i].None? {
        continue;
      }
      if positions[i].value != position {
        assert positions[i].value > position;
        break;
      }
      position := position + 1;
    }
  }

  // ----- Installs and removals -----

  datatype Place = Place(gameCenterId: Id, position: int)

  /** Where each machine stands, if anywhere. */
  type Machines = map<Id, Option<Place>>

  function Occupants(machines: Machines, center: Id): set<Id> {
    set m | m in machines && machines[m].Some? && machines[m].value.gameCenterId == center
  }

  function PositionsOf(machines: Machines, among: set<Id>): set<int> {
    set m | m in among && m in machines && machines[m].Some? :: machines[m].value.position
  }

  ghost predicate IsLeastFree(machines: Machines, center: Id, position: int) {
    var used := PositionsOf(machines, Occupants(machines, center));
    position >= 1 && position !in used && forall p :: 1 <= p < position ==> p in used
  }

  /** An install reads machine and center at some earlier moment; its transaction fails if the position
      it chose is taken by then. A removal, for whatever reason, always succeeds. */
  datatype Step = Install(machine: Id, center: Id, readAt: nat) | Remove(removed: set<Id>)

  ghost predicate Next(states: seq<Machines>, sizes: Id -> Size, step: Step, after: Machines)
    requires states != []
  {
    var now := states[|states| - 1];
    match step
    case Remove(removed) => after == map m | m in now :: if m in removed then None else now[m]
    case Install(machine, center, readAt) =>
      && readAt < |states|
      && var read := states[readAt];
         && machine in read && machine in now && read[machine].None?
         && |Occupants(read, center)| < GetCapacity(sizes(center))
         && exists position ::
              && IsLeastFree(read, center, position)
              && after == if exists m | m in now && m != machine :: now[m] == Some(Place(center, position)) then now
                          else now[machine := Some(Place(center, position))]
  }

  ghost predicate Follows(states: seq<Machines>, sizes: Id -> Size, i: nat)
    requires 0 < i < |states|
  {
    exists step :: Next(states[..i], sizes, step, states[i])
  }

  ghost predicate IsRun(states: seq<Machines>, sizes: Id -> Size) {
    && states != [] && (forall m <- states[0] :: states[0][m] == None)
    && forall i {:trigger Follows(states, sizes, i)} :: 0 < i < |states| ==> Follows(states, sizes, i)
  }

  ghost predicate InCapacity(machines: Machines, sizes: Id -> Size) {
    && (forall m <- machines :: machines[m].Some? ==>
          1 <= machines[m].value.position <= GetCapacity(sizes(machines[m].value.gameCenterId)))
    && (forall m <- machines, l <- machines :: m != l && machines[m].Some? ==> machines[m] != machines[l])
  }

  // ----- Counting -----

  lemma {:induction false} NoMorePositionsThanMachines(machines: Machines, among: set<Id>)
    ensures |PositionsOf(machines, among)| <= |among|
    decreases |among|
  {
    if among == {} {
      assert PositionsOf(machines, among) == {};
    } else {
      var m :| m in among;
      NoMorePositionsThanMachines(machines, among - {m});
      if m in machines && machines[m].Some? {
        assert PositionsOf(machines, among) == PositionsOf(machines, among - {m}) + {machines[m].value.position};
      } else {
        assert PositionsOf(machines, among) == PositionsOf(machines, among - {m});
      }
    }
  }

  lemma {:induction false} OnePositionEach(machines: Machines, sizes: Id -> Size, center: Id, among: set<Id>)
    requires InCapacity(machines, sizes) && among <= Occupants(machines, center)
    ensures |PositionsOf(machines, among)| == |among|
    decreases |among|
  {
    if among == {} {
      assert PositionsOf(machines, among) == {};
    } else {
      var m :| m in among;
      OnePositionEach(machines, sizes, center, among - {m});
      var position := machines[m].value.position;
      assert PositionsOf(machines, among) == PositionsOf(machines, among - {m}) + {position};
      assert position !in PositionsOf(machines, among - {m}) by {
        assert forall l <- among - {m} :: machines[l] != machines[m];
      }
    }
  }

  function UpTo(n: nat): (s: set<int>)
    ensures |s| == n
    ensures forall p :: p in s <==> 1 <= p <= n
  {
    if n == 0 then {} else UpTo(n - 1) + {n}
  }

  /** In a center that is not full the least free position is within its capacity. */
  lemma LeastFreeFits(machines: Machines, center: Id, position: int)
    requires IsLeastFree(machines, center, position)
    ensures position <= |Occupants(machines, center)| + 1
  {
    SubsetSize(UpTo(position - 1), PositionsOf(machines, Occupants(machines, center)));
    NoMorePositionsThanMachines(machines, Occupants(machines, center));
  }

  lemma OccupancyFits(machines: Machines, sizes: Id -> Size, center: Id)
    requires InCapacity(machines, sizes)
    ensures |Occupants(machines, center)| <= GetCapacity(sizes(center))
  {
    OnePositionEach(machines, sizes, center, Occupants(machines, center));
    SubsetSize(PositionsOf(machines, Occupants(machines, center)), UpTo(GetCapacity(sizes(center))));
  }

  /** However installs and removals interleave, positions stay distinct and within capacity, and no
      center ever holds more machines than it has room for. */
  lemma {:induction false} CentersNeverOverflow(states: seq<Machines>, sizes: Id -> Size, i: nat)
    requires IsRun(states, sizes) && i < |states|
    ensures InCapacity(states[i], sizes)
    ensures forall center :: |Occupants(states[i], center)| <= GetCapacity(sizes(center)) <= 64
  {
    if i > 0 {
      CentersNeverOverflow(states, sizes, i - 1);
      assert Follows(states, sizes, i);
      var step :| Next(states[..i], sizes, step, states[i]);
      NextInCapacity(states[..i], sizes, step, states[i]);
    }
    forall center
      ensures |Occupants(states[i], center)| <= GetCapacity(sizes(center))
    {
      OccupancyFits(states[i], sizes, center);
    }
  }

  lemma NextInCapacity(states: seq<Machines>, sizes: Id -> Size, step: Step, after: Machines)
    requires states != [] && Next(states, sizes, step, after)
    requires InCapacity(states[|states| - 1], sizes)
    ensures InCapacity(after, sizes)
  {
    var now := states[|states| - 1];
    if step.Install? {
      var read := states[step.readAt];
      var position :| IsLeastFree(read, step.center, position)
        && after == if exists m | m in now && m != step.machine :: now[m] == Some(Place(step.center, position)) then now
                    else now[step.machine := Some(Place(step.center, position))];
      LeastFreeFits(read, step.center, position);
    }
  }

  /** What FindSlot returns on the rows of a center is its least free position. */
  lemma FoundSlotIsLeastFree(machines: Machines, center: Id, positions: seq<Option<int>>, position: int)
    requires forall p :: Some(p) in positions <==> p in PositionsOf(machines, Occupants(machines, center))
    requires position >= 1 && Some(position) !in positions && forall p :: 1 <= p < position ==> Some(p) in positions
    ensures IsLeastFree(machines, center, position)
  {
  }

  // ----- Installs that read the present -----

  lemma {:induction false} FirstFree(used: set<int>, n: nat) returns (position: int)
    requires exists p :: 1 <= p <= n && p !in used
    ensures 1 <= position <= n && position !in used && forall p :: 1 <= p < position ==> p in used
  {
    if p :| 1 <= p <= n - 1 && p !in used {
      position := FirstFree(used, n - 1);
    } else {
      position := n;
    }
  }

  /** There always is one to take. */
  lemma LeastFreeExists(machines: Machines, center: Id) returns (position: int)
    ensures IsLeastFree(machines, center, position)
  {
    var used := PositionsOf(machines, Occupants(machines, center));
    var n := |used| + 1;
    if UpTo(n) <= used {
      SubsetSize(UpTo(n), used);
      assert false;
    }
    assert exists p :: p in UpTo(n) && p !in used;
    position := FirstFree(used, n);
  }

  /** Undisturbed, an install goes through exactly if the machine stands nowhere and the center holds fewer
      than its 4, 16 or 64 machines; it takes the least free position and moves nothing else. */
  lemma InstallsIfRoom(states: seq<Machines>, sizes: Id -> Size, machine: Id, center: Id, after: Machines)
    requires states != []
    ensures var now := states[|states| - 1];
            var room := match sizes(center) case SMALL => 4 case MEDIUM => 16 case LARGE => 64;
            Next(states, sizes, Install(machine, center, |states| - 1), after) <==>
              && machine in now && now[machine].None? && |Occupants(now, center)| < room
              && exists position :: IsLeastFree(now, center, position) && after == now[machine := Some(Place(center, position))]
  {
  }

  /** A removal empties the places of the machines removed and of no other. */
  lemma RemovalIs(states: seq<Machines>, sizes: Id -> Size, removed: set<Id>, after: Machines)
    requires states != [] && Next(states, sizes, Remove(removed), after)
    ensures var now := states[|states| - 1];
            after.Keys == now.Keys && forall m <- now :: if m in removed then after[m].None? else after[m] == now[m]
  {
  }
}
