/** The feasibility checks of src/grasphhcrsp.py: `outAndBackToGarage`,
    `TreatmentAfterWindowBegins` and `noNegatives`. The source spells their
    results `true` and `false`, which Python does not define; `True` and
    `False` are meant and are the booleans here. */
module Constraints {
  import opened Patients

  /** Node `node` lies where the garage, node 0, lies. */
  predicate AtGarage(x: seq<int>, y: seq<int>, node: int)
    requires 0 < |x| && 0 < |y| && 0 <= node < |x| && node < |y|
  {
    x[node] == x[0] && y[node] == y[0]
  }

  /** The coordinates of node `node` can be looked up. */
  predicate Locates(x: seq<int>, y: seq<int>, node: int)
  {
    0 <= node < |x| && node < |y|
  }

  /** outAndBackToGarage: the route leaves from and returns to the garage's
      coordinates. Only the first and the last node are looked up, so only
      they need coordinates. The coordinate lists are the instance's `x` and
      `y`, which the source reads from a global `instance`. The source finds
      the last node with `visitedNodes.len()`, which Python lists do not have;
      `len(visitedNodes)` is meant. */
  function OutAndBackToGarage(x: seq<int>, y: seq<int>, visitedNodes: seq<int>): (ok: bool)
    requires |visitedNodes| > 0
    requires Locates(x, y, visitedNodes[0]) && Locates(x, y, visitedNodes[|visitedNodes| - 1])
    ensures ok <==> AtGarage(x, y, visitedNodes[0]) && AtGarage(x, y, visitedNodes[|visitedNodes| - 1])
  {
    var firstNode := visitedNodes[0];
    var lastNode := visitedNodes[|visitedNodes| - 1];
    var xGarage := x[0];
    var yGarage := y[0];
    x[firstNode] == xGarage && y[firstNode] == yGarage && x[lastNode] == xGarage && y[lastNode] == yGarage
  }

  /** A route that starts and ends at node 0 passes, whatever nodes it visits
      in between. */
  lemma DepotRoutePasses(x: seq<int>, y: seq<int>, route: seq<int>)
    requires |route| > 0 && 0 < |x| && 0 < |y|
    requires route[0] == 0 && route[|route| - 1] == 0
    ensures OutAndBackToGarage(x, y, route)
  {
  }

  /** A route between the two depot nodes 0 and n-1 passes exactly when node
      n-1 has the garage's coordinates. */
  lemma ClosingDepotPassesIffSameSpot(x: seq<int>, y: seq<int>, route: seq<int>, n: int)
    requires |route| > 0 && 0 < n == |x| == |y|
    requires route[0] == 0 && route[|route| - 1] == n - 1
    ensures OutAndBackToGarage(x, y, route) <==> x[n - 1] == x[0] && y[n - 1] == y[0]
  {
  }

  /** Only the two ends of the route matter: the nodes in between are never
      looked at. */
  lemma OnlyEndsMatter(x: seq<int>, y: seq<int>, route: seq<int>)
    requires |route| > 0 && Locates(x, y, route[0]) && Locates(x, y, route[|route| - 1])
    ensures OutAndBackToGarage(x, y, route) == OutAndBackToGarage(x, y, [route[0], route[|route| - 1]])
  {
  }

  /** The check compares coordinates, not node numbers: a route from and to
      node 2, which sits on the garage, passes although it never visits node
      0, and its middle node 99 has no coordinates at all; the same holds for
      a route from the garage back to it through node 99. */
  lemma CoordinatesNotIndices()
    ensures OutAndBackToGarage([5, 1, 5], [7, 2, 7], [2, 99, 2])
    ensures OutAndBackToGarage([5, 1], [7, 2], [0, 99, 0])
  {
  }

  /** Both services a patient needs start at or after the window opens. */
  predicate StartsInWindow(p: Patient, slots: Slots)
  {
    && slots.first.beg >= p.timeWindowBegin as real
    && (p.doubleService ==> slots.second.beg >= p.timeWindowBegin as real)
  }

  /** TreatmentAfterWindowBegins: false as soon as a first service, or the
      second service of a double-service patient, starts before the patient's
      window opens. The source writes `for person in serviceTimeList` and then
      uses `person` as an index; the row number is meant, and row k belongs
      to patient k. The patient field it tests, `isNeedful`, does not exist;
      it is the field `doubleservice`, here `doubleService`. */
  method TreatmentAfterWindowBegins(serviceTimeList: seq<Slots>, patientList: seq<Patient>) returns (ok: bool)
    requires |patientList| >= |serviceTimeList|
    ensures ok <==> forall k :: 0 <= k < |serviceTimeList| ==> StartsInWindow(patientList[k], serviceTimeList[k])
    ensures !ok <==> (exists k :: 0 <= k < |serviceTimeList| &&
                        (serviceTimeList[k].first.beg < patientList[k].timeWindowBegin as real ||
                         (patientList[k].doubleService && serviceTimeList[k].second.beg < patientList[k].timeWindowBegin as real)))
  {
    var person := 0;
    while person < |serviceTimeList|
      invariant person <= |serviceTimeList|
      invariant forall k :: 0 <= k < person ==> StartsInWindow(patientList[k], serviceTimeList[k])
    {
      if serviceTimeList[person].first.beg < patientList[person].timeWindowBegin as real {
        return false;
      } else if patientList[person].doubleService {
        if serviceTimeList[person].second.beg < patientList[person].timeWindowBegin as real {
          return false;
        }
      }
      person := person + 1;
    }
    return true;
  }

  /** Neither slot of the row starts at a negative time. */
  predicate NoNegativeStart(slots: Slots)
  {
    slots.first.beg >= 0.0 && slots.second.beg >= 0.0
  }

  /** noNegatives: false as soon as a row has a negative start in slot 0 or
      slot 1. Slot 1 is tested for every row, including those of patients who
      need only one service. */
  method NoNegatives(serviceTimeList: seq<Slots>) returns (ok: bool)
    ensures ok <==> forall k :: 0 <= k < |serviceTimeList| ==> NoNegativeStart(serviceTimeList[k])
    ensures !ok <==> (exists k :: 0 <= k < |serviceTimeList| &&
                        (serviceTimeList[k].first.beg < 0.0 || serviceTimeList[k].second.beg < 0.0))
  {
    var person := 0;
    while person < |serviceTimeList|
      invariant person <= |serviceTimeList|
      invariant forall k :: 0 <= k < person ==> NoNegativeStart(serviceTimeList[k])
    {
      var row := serviceTimeList[person];
      if row.first.beg < 0.0 || row.second.beg < 0.0 {
        return false;
      }
      person := person + 1;
    }
    return true;
  }

  /** With windows that open at time 0 or later, services that start within
      their windows start at non-negative times: the window check covers
      noNegatives on every slot a patient uses. */
  lemma {:induction false} WindowsCoverUsedSlots(serviceTimeList: seq<Slots>, patientList: seq<Patient>, k: nat)
    requires |patientList| >= |serviceTimeList| && k < |serviceTimeList|
    requires forall j :: 0 <= j < |serviceTimeList| ==> StartsInWindow(patientList[j], serviceTimeList[j])
    requires patientList[k].timeWindowBegin >= 0
    ensures serviceTimeList[k].first.beg >= 0.0
    ensures patientList[k].doubleService ==> serviceTimeList[k].second.beg >= 0.0
  {
    assert StartsInWindow(patientList[k], serviceTimeList[k]);
  }

  /** But not on the unused slot: a single-service patient whose second slot
      holds a negative placeholder passes the window check and fails
      noNegatives. */
  lemma UnusedSlotStillChecked()
    ensures var patient := Patient(0, 100, [1], false);
            var row := Slots(ServiceTime(2.0, 3.0), ServiceTime(-1.0, -1.0));
      StartsInWindow(patient, row) && !NoNegativeStart(row)
  {
  }
}
