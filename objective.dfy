/** The objective of a solution (`buildsDistanceList` and `objective` of
    src/grasphhcrsp.py): the distance every vehicle travels, plus the total
    lateness, plus the largest single lateness. The source reads the distance
    matrix from a global `instance`; here it is the parameter `d`. */
module Objective {
  import opened Patients
  import opened Lateness

  /** The distance from node a to node b can be looked up. */
  ghost predicate LegOk(d: seq<seq<real>>, a: int, b: int)
  {
    0 <= a < |d| && 0 <= b < |d[a]|
  }

  /** The distance-matrix entry d[a][b]. */
  function Dist(d: seq<seq<real>>, a: int, b: int): real
    requires LegOk(d, a, b)
  {
    d[a][b]
  }

  /** Every leg of the route can be looked up in the distance matrix. */
  ghost predicate ValidRoute(d: seq<seq<real>>, route: seq<int>)
  {
    forall i :: 0 <= i < |route| - 1 ==> LegOk(d, route[i], route[i + 1])
  }

  /** Every prefix of a valid route is valid. */
  lemma ValidPrefix(d: seq<seq<real>>, route: seq<int>, k: nat)
    requires ValidRoute(d, route) && k <= |route|
    ensures ValidRoute(d, route[..k])
  {
    forall i | 0 <= i < k - 1
      ensures LegOk(d, route[..k][i], route[..k][i + 1])
    {
      assert LegOk(d, route[i], route[i + 1]);
    }
  }

  /** The distances between consecutive nodes of a route, in route order. */
  function Legs(d: seq<seq<real>>, route: seq<int>): (legs: seq<real>)
    requires ValidRoute(d, route)
    ensures |legs| == if |route| == 0 then 0 else |route| - 1
    ensures forall i :: 0 <= i < |legs| ==> legs[i] == Dist(d, route[i], route[i + 1])
  {
    if |route| <= 1 then []
    else
      var n := |route| - 1;
      ValidPrefix(d, route, n);
      Legs(d, route[..n]) + [Dist(d, route[n - 1], route[n])]
  }

  /** buildsDistanceList: the `while` loop that stops one node before the end
      and appends the distance to the next node. The source calls
      `visitedNodes.len()`, which Python lists do not have; `len(visitedNodes)`
      is meant. */
  method BuildsDistanceList(d: seq<seq<real>>, visitedNodes: seq<int>) returns (distances: seq<real>)
    requires ValidRoute(d, visitedNodes)
    ensures distances == Legs(d, visitedNodes)
    ensures |distances| == if |visitedNodes| == 0 then 0 else |visitedNodes| - 1
    ensures forall i :: 0 <= i < |distances| ==> distances[i] == Dist(d, visitedNodes[i], visitedNodes[i + 1])
  {
    var i := 0;
    distances := [];
    while i < |visitedNodes| - 1
      invariant 0 <= i <= if |visitedNodes| == 0 then 0 else |visitedNodes| - 1
      invariant ValidRoute(d, visitedNodes[..if |visitedNodes| == 0 then 0 else i + 1])
      invariant distances == Legs(d, visitedNodes[..if |visitedNodes| == 0 then 0 else i + 1])
    {
      var origin := visitedNodes[i];
      var destination := visitedNodes[i + 1];
      assert LegOk(d, origin, destination);
      ValidPrefix(d, visitedNodes, i + 2);
      assert visitedNodes[..i + 2][..i + 1] == visitedNodes[..i + 1];
      distances := distances + [d[origin][destination]];
      i := i + 1;
    }
    assert visitedNodes[..if |visitedNodes| == 0 then 0 else i + 1] == visitedNodes;
  }

  ghost predicate ValidRoutes(d: seq<seq<real>>, routes: seq<seq<int>>)
  {
    forall k :: 0 <= k < |routes| ==> ValidRoute(d, routes[k])
  }

  /** The distance one vehicle travels. */
  function RouteDistance(d: seq<seq<real>>, route: seq<int>): real
    requires ValidRoute(d, route)
  {
    Sum(Legs(d, route))
  }

  /** The distance all vehicles travel, route after route. */
  function TotalDistance(d: seq<seq<real>>, routes: seq<seq<int>>): real
    requires ValidRoutes(d, routes)
  {
    if routes == [] then 0.0
    else
      var n := |routes| - 1;
      TotalDistance(d, routes[..n]) + RouteDistance(d, routes[n])
  }

  /** The final formula of `objective`. */
  function ObjectiveValue(d: seq<seq<real>>, routes: seq<seq<int>>, patients: seq<Patient>, times: seq<Slots>): real
    requires ValidRoutes(d, routes) && |patients| > 0 && |times| >= |patients|
  {
    var lates := LatenessList(patients, times);
    TotalDistance(d, routes) + Sum(lates) + Max(lates)
  }

  /** No distance in the matrix is negative. */
  ghost predicate NonNegativeMatrix(d: seq<seq<real>>)
  {
    forall a, b :: 0 <= a < |d| && 0 <= b < |d[a]| ==> d[a][b] >= 0.0
  }

  /** With no negative distance, no route has a negative length. */
  lemma RouteDistanceNonNegative(d: seq<seq<real>>, route: seq<int>)
    requires ValidRoute(d, route) && NonNegativeMatrix(d)
    ensures RouteDistance(d, route) >= 0.0
  {
    var legs := Legs(d, route);
    assert NonNegative(legs) by {
      forall i | 0 <= i < |legs| ensures legs[i] >= 0.0 {
        assert i + 1 < |route| && LegOk(d, route[i], route[i + 1]);
      }
    }
    SumNonNegative(legs);
  }

  /** With no negative distance, the total distance is not negative. */
  lemma {:induction false} TotalDistanceNonNegative(d: seq<seq<real>>, routes: seq<seq<int>>)
    requires ValidRoutes(d, routes) && NonNegativeMatrix(d)
    ensures TotalDistance(d, routes) >= 0.0
  {
    if routes != [] {
      var n := |routes| - 1;
      assert ValidRoutes(d, routes[..n]);
      TotalDistanceNonNegative(d, routes[..n]);
      RouteDistanceNonNegative(d, routes[n]);
    }
  }

  /** The total distance of two groups of routes is the sum of the groups'
      totals: each vehicle's distance is counted once, whatever the order. */
  lemma {:induction false} TotalDistanceConcat(d: seq<seq<real>>, first: seq<seq<int>>, second: seq<seq<int>>)
    requires ValidRoutes(d, first) && ValidRoutes(d, second)
    ensures ValidRoutes(d, first + second)
    ensures TotalDistance(d, first + second) == TotalDistance(d, first) + TotalDistance(d, second)
  {
    var all := first + second;
    assert ValidRoutes(d, all) by {
      forall k | 0 <= k < |all| ensures ValidRoute(d, all[k]) {
        if k < |first| { assert all[k] == first[k]; } else { assert all[k] == second[k - |first|]; }
      }
    }
    if second == [] {
      assert all == first;
    } else {
      var n := |second| - 1;
      assert ValidRoutes(d, second[..n]);
      TotalDistanceConcat(d, first, second[..n]);
      assert all[..|all| - 1] == first + second[..n];
      assert all[|all| - 1] == second[n];
    }
  }

  /** With no negative distance the objective is not negative. */
  lemma ObjectiveNonNegative(d: seq<seq<real>>, routes: seq<seq<int>>, patients: seq<Patient>, times: seq<Slots>)
    requires ValidRoutes(d, routes) && NonNegativeMatrix(d) && |patients| > 0 && |times| >= |patients|
    ensures ObjectiveValue(d, routes, patients, times) >= 0.0
  {
    ObjectiveAgainstDistance(d, routes, patients, times);
    TotalDistanceNonNegative(d, routes);
  }

  /** The objective is never below the distance travelled, and equals it
      exactly when every service ends on time. */
  lemma ObjectiveAgainstDistance(d: seq<seq<real>>, routes: seq<seq<int>>, patients: seq<Patient>, times: seq<Slots>)
    requires ValidRoutes(d, routes) && |patients| > 0 && |times| >= |patients|
    ensures ObjectiveValue(d, routes, patients, times) >= TotalDistance(d, routes)
    ensures ObjectiveValue(d, routes, patients, times) == TotalDistance(d, routes) <==> AllOnTime(patients, times)
  {
    var lates := LatenessList(patients, times);
    SumDominatesMax(lates);
    TotalZeroIffOnTime(patients, times);
  }

  /** objective: the routes' leg distances summed route by route, then the
      lateness terms. As written the source loops over an undefined
      `listofVehicles`, adds to an undefined `totalDistance`, calls
      AlltheLateness with the time table only and adds a misspelt `latness`;
      this is the evident intent: start from 0, loop over the routes, pass
      the patients and the time table, add the total lateness. */
  method Objective(d: seq<seq<real>>, listofVehiclesRoutes: seq<seq<int>>, patients: seq<Patient>, patientsTimes: seq<Slots>)
    returns (objectiveValue: real)
    requires ValidRoutes(d, listofVehiclesRoutes) && |patients| > 0 && |patientsTimes| >= |patients|
    ensures objectiveValue == ObjectiveValue(d, listofVehiclesRoutes, patients, patientsTimes)
    ensures objectiveValue >= TotalDistance(d, listofVehiclesRoutes)
    ensures objectiveValue == TotalDistance(d, listofVehiclesRoutes) <==> AllOnTime(patients, patientsTimes)
  {
    var totalDistance := 0.0;
    var car := 0;
    while car < |listofVehiclesRoutes|
      invariant car <= |listofVehiclesRoutes|
      invariant totalDistance == TotalDistance(d, listofVehiclesRoutes[..car])
    {
      var legs := BuildsDistanceList(d, listofVehiclesRoutes[car]);
      assert listofVehiclesRoutes[..car + 1][..car] == listofVehiclesRoutes[..car];
      totalDistance := totalDistance + Sum(legs);
      car := car + 1;
    }
    assert listofVehiclesRoutes[..car] == listofVehiclesRoutes;
    var lateness, biggestLate, listLates := AlltheLateness(patients, patientsTimes);
    objectiveValue := totalDistance + lateness + biggestLate;
    ObjectiveAgainstDistance(d, listofVehiclesRoutes, patients, patientsTimes);
  }

  /** The distance matrix of the four-node example below. */
  function ExampleMatrix(): seq<seq<real>>
  {
    [[0.0, 2.0, 5.0, 4.0], [2.0, 0.0, 3.0, 5.0], [5.0, 3.0, 0.0, 2.0], [4.0, 5.0, 2.0, 0.0]]
  }

  /** Along 0, 1, 2, 3 the legs are 2, 3 and 2, and the vehicle travels 7. */
  lemma ExampleRouteDistance()
    ensures ValidRoute(ExampleMatrix(), [0, 1, 2, 3])
    ensures Legs(ExampleMatrix(), [0, 1, 2, 3]) == [2.0, 3.0, 2.0]
    ensures RouteDistance(ExampleMatrix(), [0, 1, 2, 3]) == 7.0
  {
    var d, route := ExampleMatrix(), [0, 1, 2, 3];
    assert LegOk(d, 0, 1) && LegOk(d, 1, 2) && LegOk(d, 2, 3);
    assert ValidRoute(d, route);
    var legs := Legs(d, route);
    assert legs == [2.0, 3.0, 2.0];
    SumSnoc([], 2.0);
    SumSnoc([2.0], 3.0);
    SumSnoc([2.0, 3.0], 2.0);
    assert [] + [2.0] == [2.0] && [2.0] + [3.0] == [2.0, 3.0] && [2.0, 3.0] + [2.0] == legs;
  }

  /** Four nodes, depots 0 and 3, patients 1 and 2 served by one vehicle along
      0, 1, 2, 3 with legs 2, 3 and 2, both services ending within the window
      [0, 100]: the objective is 2 + 3 + 2 = 7. */
  lemma FourNodeExample()
    ensures var patients := [Patient(0, 100, [1], false), Patient(0, 100, [1], false)];
            var times := [Slots(ServiceTime(2.0, 3.0), ServiceTime(-1.0, -1.0)),
                          Slots(ServiceTime(6.0, 7.0), ServiceTime(-1.0, -1.0))];
      && ValidRoutes(ExampleMatrix(), [[0, 1, 2, 3]])
      && ObjectiveValue(ExampleMatrix(), [[0, 1, 2, 3]], patients, times) == 7.0
  {
    var d, route := ExampleMatrix(), [0, 1, 2, 3];
    var patients := [Patient(0, 100, [1], false), Patient(0, 100, [1], false)];
    var times := [Slots(ServiceTime(2.0, 3.0), ServiceTime(-1.0, -1.0)),
                  Slots(ServiceTime(6.0, 7.0), ServiceTime(-1.0, -1.0))];
    ExampleRouteDistance();
    var routes: seq<seq<int>> := [route];
    assert routes[..0] == [];
    assert TotalDistance(d, routes) == 7.0;
    assert AllOnTime(patients, times);
    ObjectiveAgainstDistance(d, routes, patients, times);
  }

  /** A patient with window [0, 5] whose only service ends at 10 is 5 late, and
      with no other late service both lateness terms are 5. */
  lemma LateServiceExample()
    ensures var patients := [Patient(0, 5, [1], false), Patient(0, 100, [1], false)];
            var times := [Slots(ServiceTime(9.0, 10.0), ServiceTime(-1.0, -1.0)),
                          Slots(ServiceTime(6.0, 7.0), ServiceTime(-1.0, -1.0))];
            var lates := LatenessList(patients, times);
      lates == [5.0, 0.0] && Sum(lates) == 5.0 && Max(lates) == 5.0
  {
    var patients := [Patient(0, 5, [1], false), Patient(0, 100, [1], false)];
    var times := [Slots(ServiceTime(9.0, 10.0), ServiceTime(-1.0, -1.0)),
                  Slots(ServiceTime(6.0, 7.0), ServiceTime(-1.0, -1.0))];
    assert patients[..1][..0] == [];
    assert LatenessList(patients[..1], times) == [5.0];
    var lates := LatenessList(patients, times);
    assert lates == [5.0, 0.0];
    SumSnoc([], 5.0);
    SumSnoc([5.0], 0.0);
    assert [] + [5.0] == [5.0] && [5.0] + [0.0] == lates;
  }
}
