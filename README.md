# HHCRSP instance format and solution evaluator

A Dafny model of the working parts of a GRASP prototype for the Home Health
Care Routing and Scheduling Problem (HHCRSP). Staff members ("vehicles") visit
patient nodes, each patient needing one or two services within a time window.
Nodes 0 and nbNodes-1 are the depot (garage).

The model covers two parts of the program:

- The instance text format: the loader `HhcrspInstance.__init__` and the
  serialiser `HhcrspInstance.__str__`. They are identical in
  `src/grasp-hhcrsp.py` and `src/grasphhcrsp.py`. The model is in
  `instance.dfy`, built on `wrappers.dfy`.
  - A file is a sequence of lines, and a line is a sequence of tokens.
  - The loader is the method `Load`. It moves a line cursor forward one line
    per `readline` and appends rows in counted loops (`ReadRows`). It is
    proved equal to the
    specification function `Parse`.
  - The serialiser is the function `Serialise`.
  - The headline result is the round trip `Parse(Serialise(inst)) == Ok(inst)`
    for every instance with at least one node and one vehicle whose row
    sections have the announced sizes. Two lemmas show why empty sections
    break it.
- The evaluator and the feasibility checks of `src/grasphhcrsp.py`:
  - the patient list built in the main block (`patients.dfy`);
  - `howLate` and `AlltheLateness` (`lateness.dfy`);
  - `buildsDistanceList` and `objective` (`objective.dfy`);
  - `outAndBackToGarage`, `TreatmentAfterWindowBegins` and `noNegatives`
    (`constraints.dfy`).

The evaluator code is an unfinished prototype with several slips. Each is
modelled as evidently intended, and the Dafny comment at that member says so:

- `i.isNeedful` is the patient field `doubleservice`.
- `visitedNodes.len()` is `len(visitedNodes)`.
- The global `instance` becomes explicit parameters: the distance matrix `d`
  and the coordinate lists `x` and `y`.
- `objective`:
  - loops over the routes it is given, not the undefined `listofVehicles`;
  - starts `totalDistance` at 0;
  - passes both the patients and the time table to `AlltheLateness`;
  - adds the total lateness, which the source misspells `latness`.
- `true`/`false` are Python's `True`/`False`.
- `for person in serviceTimeList` is used as a row index.

## Model

| member | source | states |
|---|---|---|
| HhcrspInstance.ParseListConverts | src/grasp-hhcrsp.py:24 | A data line converts exactly when every token converts. The result has one value per token, in order, and an empty line gives the empty list. |
| HhcrspInstance.ScalarAt | src/grasp-hhcrsp.py:9-16 | A scalar line loads exactly when it holds a single token and that token is an integer, and it then loads as that integer. Otherwise loading fails at that line. |
| HhcrspInstance.ListAtReads | src/grasp-hhcrsp.py:24 | A one-line list (DS here, and x, y, mind, maxd, e, l at lines 32-57) loads exactly when every token on the line converts. It then holds the converted tokens in order. Otherwise loading fails at that line. |
| HhcrspInstance.Rows | src/grasp-hhcrsp.py:19-21 | A row section of k rows either gives exactly k rows or fails at one of its own k lines. |
| HhcrspInstance.RowsConvertEachLine | src/grasp-hhcrsp.py:19-21 | When a row section reads, row j is what line start+j converts to. |
| HhcrspInstance.RowsStopAtFirstError | src/grasp-hhcrsp.py:20-21 | Once a row fails to convert, the whole section fails at that row. |
| HhcrspInstance.ReadRows | src/grasp-hhcrsp.py:19-21 | The counted append loop computes the row section, stopping at the first row that fails. On success the cursor stands just past the section's k lines. |
| HhcrspInstance.Parse | src/grasp-hhcrsp.py:7-57 | The loaded r and d have Count(nbNodes) rows, a has Count(nbVehi) rows and p has Count(nbNodes*nbVehi) rows. Count is the number of iterations of Python's range. |
| HhcrspInstance.Load | src/grasp-hhcrsp.py:7-57 | The loader, moving its cursor one line per readline, gives exactly the result of Parse. On success the cursor has passed 24 + 2·Count(nbNodes) + Count(nbVehi) + Count(nbNodes·nbVehi) lines, where Count(n) is max(n, 0), the number of iterations of `range(n)`. For a well-shaped instance this is the length of the serialised text (see SerialisedLayout). |
| HhcrspInstance.Section | src/grasp-hhcrsp.py:67 | `'\n'.join` of the rows gives as many lines as there are rows, and one line when there are none. |
| HhcrspInstance.SectionLines | src/grasp-hhcrsp.py:67 | Those lines are the rows themselves, or a single empty line when there are no rows. |
| HhcrspInstance.SerialisedLayout | src/grasp-hhcrsp.py:59-87 | The serialiser writes the 14 labels and their data in loader order. Every data line sits where the loader looks for it. The text is 24 + 2·nbNodes + nbVehi + nbNodes·nbVehi lines long. |
| HhcrspInstance.SerialisedLabels | src/grasp-hhcrsp.py:59-87 | `__str__` writes each of the 14 labels, by name, on the line just before the data the loader reads after it. |
| HhcrspInstance.LabelLinesSkipped | src/grasp-hhcrsp.py:8-56 | The line before each block of data is never a data line of the layout, so the loader skips every label. |
| HhcrspInstance.ParseEncoded | src/grasp-hhcrsp.py:69 | A list written with `' '.join(str(x) ...)` converts back to the same list. |
| HhcrspInstance.ParseHoldsData | src/grasp-hhcrsp.py:8-57 | Any file whose data lines encode a well-shaped instance loads as that instance. |
| HhcrspInstance.RoundTrip | src/grasphhcrsp.py:29-109 | Loading the serialised text of a well-shaped instance gives back every field of it. Well-shaped means nbNodes ≥ 1, nbVehi ≥ 1, and rows r, d, a, p in the announced numbers. |
| HhcrspInstance.RoundTripWithAnyLabels | src/grasp-hhcrsp.py:9-56 | The round trip holds whatever text stands on the 14 label lines, because the loader discards them. |
| HhcrspInstance.ParseReadsOnlyData | src/grasp-hhcrsp.py:8-57 | Two files that agree on the header and on every data line of the announced layout load alike. |
| HhcrspInstance.TrailingLinesIgnored | src/grasp-hhcrsp.py:56-57 | Lines after the last data line do not change what loads. |
| HhcrspInstance.NonDataLineIgnored | src/grasp-hhcrsp.py:9-56 | Replacing any line that is not a data line leaves the loaded result unchanged. |
| HhcrspInstance.RoundTripWithTrailingLines | src/grasp-hhcrsp.py:59-87 | The serialised text with extra lines appended still loads as the instance. |
| HhcrspInstance.EmptyNodeSectionShiftsLabels | src/grasp-hhcrsp.py:66-69 | With nbNodes = 0, the empty r section is written as one empty line. The loader reads the label "DS" as the DS list and fails at line 8. |
| HhcrspInstance.EmptyVehicleSectionShiftsLabels | src/grasp-hhcrsp.py:70-73 | With nbVehi = 0, the empty a section shifts the labels. The loader reads the label "x" as the x list and fails at line 11 + nbNodes. |
| Patients.PatientOf | src/grasphhcrsp.py:256-261 | Patient of node i: window (e[i], l[i]), requirement row r[i], and double service exactly when i is in DS. |
| Patients.PatientsOfNodes | src/grasphhcrsp.py:254-262 | The patients of nodes lo..hi-1 in node order: max(hi-lo, 0) of them, the k-th built from node lo+k. |
| Patients.BuildPatients | src/grasphhcrsp.py:254-262 | The loop as written yields max(nbNodes-1, 0) patients, patient k built from node k+1. Nodes 1..nbNodes-1 all become patients. |
| Patients.BuildPatientsCorrected | src/grasphhcrsp.py:254-262 | With the intended guard `i != nbNodes-1`, the loop yields max(nbNodes-2, 0) patients, patient k from node k+1. Both depots are skipped. |
| Patients.EndDepotBecomesPatient | src/grasphhcrsp.py:255 | The written list is the intended list plus a patient made from the closing depot: one more than the nbNodes-2 rows of the time table. |
| Patients.FourNodesGiveThreePatients | src/grasphhcrsp.py:254-262 | With four nodes, the written loop yields three patients, the last being depot 3. The intended loop yields the two real patients. |
| Lateness.HowLate | src/grasphhcrsp.py:141-146 | Lateness is never negative. It is 0 exactly when the service ends by the window end, and otherwise it is the overrun. |
| Lateness.Max | src/grasphhcrsp.py:168 | max() of a non-empty list is one of its elements and at least every element. |
| Lateness.Entries | src/grasphhcrsp.py:157-164 | A patient adds one entry for its first service, plus a second entry for its second service when it needs two. |
| Lateness.LatenessList | src/grasphhcrsp.py:156-166 | The list has one entry per patient plus one per double-service patient, and every entry is non-negative. |
| Lateness.LatenessAt | src/grasphhcrsp.py:156-166 | Patient k's entries are at k + (double-service patients before k), in patient order. The second-service entry comes right after the first. |
| Lateness.AlltheLateness | src/grasphhcrsp.py:150-168 | For a non-empty patient list, the returned list is LatenessList, the total is its sum and the biggest is its maximum. total ≥ biggest ≥ 0, and total is 0 exactly when every service ends on time. |
| Lateness.SumDominatesMax | src/grasphhcrsp.py:168 | For non-negative lateness, sum ≥ max ≥ 0. |
| Lateness.SumEqualsMaxIff | src/grasphhcrsp.py:168 | The total equals the largest lateness exactly when at most one service is late. |
| Lateness.NoLatenessIffOnTime | src/grasphhcrsp.py:156-166 | Every entry is 0 exactly when every needed service ends by its patient's window end. |
| Lateness.TotalZeroIffOnTime | src/grasphhcrsp.py:150-168 | The total lateness is 0 exactly when every needed service ends on time. |
| Objective.Legs | src/grasphhcrsp.py:173-184 | A route of n ≥ 1 nodes has n-1 legs, leg i being d[v[i]][v[i+1]]. A one-node or empty route has none. |
| Objective.BuildsDistanceList | src/grasphhcrsp.py:173-184 | The while loop returns exactly the legs: n-1 entries with entry i = d[v[i]][v[i+1]]. |
| Objective.RouteDistanceNonNegative | src/grasphhcrsp.py:195 | With no negative entry in the distance matrix, the summed legs of a route are not negative. |
| Objective.TotalDistanceNonNegative | src/grasphhcrsp.py:194-195 | With no negative entry in the distance matrix, the total distance over all routes is not negative. |
| Objective.TotalDistanceConcat | src/grasphhcrsp.py:194-195 | The total distance of two groups of routes is the sum of the two groups' totals, so each route counts once. |
| Objective.ObjectiveNonNegative | src/grasphhcrsp.py:192-201 | With no negative entry in the distance matrix, the objective value is not negative. |
| Objective.ObjectiveAgainstDistance | src/grasphhcrsp.py:199 | The objective is at least the total distance, and equals it exactly when no service is late. |
| Objective.Objective | src/grasphhcrsp.py:192-201 | The objective is the sum over routes of their legs, plus total lateness, plus largest lateness. It is ≥ the total distance, with equality exactly when every service is on time. |
| Objective.FourNodeExample | src/grasphhcrsp.py:192-201 | Route 0,1,2,3 with legs 2, 3, 2 and both services on time gives objective 7. |
| Objective.LateServiceExample | src/grasphhcrsp.py:141-168 | A service ending at 10 for window [0, 5] is 5 late. With no other lateness, total and maximum are both 5. |
| Constraints.OutAndBackToGarage | src/grasphhcrsp.py:205-216 | For a non-empty route whose first and last nodes have coordinates, true exactly when both of those nodes have node 0's x and y coordinates. Nodes in between need no coordinates. |
| Constraints.DepotRoutePasses | src/grasphhcrsp.py:213 | A route starting and ending at node 0 passes. |
| Constraints.ClosingDepotPassesIffSameSpot | src/grasphhcrsp.py:213 | A route from node 0 to node n-1 passes exactly when node n-1 lies at node 0's coordinates. |
| Constraints.OnlyEndsMatter | src/grasphhcrsp.py:207-213 | The result depends only on the route's first and last nodes. |
| Constraints.CoordinatesNotIndices | src/grasphhcrsp.py:213 | A route from and to node 2, which sits on the garage, passes without visiting node 0: the check compares coordinates, not node numbers. Routes 2,99,2 and 0,99,0 pass although node 99 has no coordinates. |
| Constraints.TreatmentAfterWindowBegins | src/grasphhcrsp.py:218-227 | False exactly when some first service starts before its patient's window begins, or some double-service patient's second service does. |
| Constraints.NoNegatives | src/grasphhcrsp.py:229-235 | False exactly when some row has a negative start in slot 0 or in slot 1. |
| Constraints.WindowsCoverUsedSlots | src/grasphhcrsp.py:218-235 | For windows opening at 0 or later, passing the window check makes every used slot start at a non-negative time. |
| Constraints.UnusedSlotStillChecked | src/grasphhcrsp.py:232 | A single-service patient with a negative placeholder in slot 1 passes the window check but fails noNegatives. |

## Left out

- Opening the file, `readline` on a real file, `argparse`, and the output
  file or stdout handling are I/O. The file is a sequence of lines, and a line
  past the end reads as empty, as `readline` at end of file does.
- Text-level work is abstracted:
  - splitting the text into lines and lines into tokens;
  - Python's `int()`/`float()` parsing and `str()` formatting of numbers.

  A token is an integer, a float or another word, so this encoding is
  injective. `int()` accepts only integers. `float()` accepts integers and
  floats. Float text forms such as `inf`, `nan` or exponents are not modelled.
- Floats are modelled as exact reals. Python's floats are IEEE 754 doubles,
  whose `+` and `-` round, so a sum of floats can differ from the exact sum.
  Facts below that rely on exact addition hold for the model, not for every
  run of the program.
- Lateness.SumEqualsMaxIff: the direction "total equals the largest lateness,
  so at most one service is late" holds for exact reals only. In doubles, the
  lateness list [1e20, 1.0] sums to 1e20, which is its maximum.
- Objective.ObjectiveAgainstDistance: the direction "objective equals the
  distance, so every service is on time" holds for exact reals only. In
  doubles, 1e17 + 1.0 == 1e17, so a lateness of 1.0 can vanish.
- Objective.Objective: its `ensures` that equality with the total distance
  means every service is on time holds for exact reals only, as above.
- Objective.TotalDistanceConcat: holds for exact reals only. The source adds
  route after route, and in doubles the grouping matters. Routes of length
  1e16, 1.0 and 1.0 total 1e16 in loop order, but 1e16 + 2 as the sum of the
  totals of [1e16] and [1.0, 1.0].
- Row widths are not checked by the loader, and not by the model either.
- The round trip is stated for instances with at least one node and one
  vehicle and correctly sized row sections. The two empty-section lemmas show
  what happens otherwise.
- `timesAreIncreasing` is an empty stub with no behaviour to model.
- The `serviceTimes` table initialisation in the main block holds integers,
  not service times. Rows of the service-time table are the two-slot datatype
  `Slots`, after the table's two columns.
- The `vehicle` class is never used by the modelled code.
- RCL construction, the schedule builder, local search and the GRASP loop
  have no code in the source files, so they are not part of this model.
- Objective.BuildsDistanceList: requires non-negative node numbers within
  the distance matrix. Python would also accept negative indices counted from
  the end of a list.
- Constraints.OutAndBackToGarage: requires the first and last node numbers to
  be non-negative and within the coordinate lists. Python would also accept
  negative indices counted from the end of a list. It also requires a
  non-empty route. On an empty route, line 207 raises IndexError.
- Patients.BuildPatients: requires e, l and r to have an entry for every node
  the loop reads. The loader does not check the lengths of e and l. When
  either list is shorter, line 261 raises IndexError, and the model does not
  cover that case.
- Patients.BuildPatientsCorrected: the same requirement on e, l and r, for
  the nodes the corrected loop reads.
- Lateness.AlltheLateness: requires at least as many time-table rows as
  patients. With fewer rows, line 157 raises IndexError. It also requires a
  non-empty patient list. With no patients, `max` of the empty list at line
  168 raises ValueError.
- Constraints.TreatmentAfterWindowBegins: requires at least as many patients
  as time-table rows. With fewer patients, the source raises IndexError. The
  requirement also excludes inputs where the source returns False before it
  reaches the first missing patient, because one of the earlier rows starts
  too early.

## Findings

| source | as written | input that shows it | evidently intended | confidence | as-written member | corrected member |
|---|---|---|---|---|---|---|
| src/grasphhcrsp.py:255 | `if(i!=0 and i!=instance.nbNodes)` inside `for i in range(instance.nbNodes)`. The second test never fails, so the closing depot nbNodes-1 becomes a patient. | nbNodes = 4: nodes 1, 2 and 3 become patients, but node 3 is the depot. The table at line 264 has nbNodes-2 = 2 rows. | Skip both depots, `i != instance.nbNodes - 1`, giving nbNodes-2 patients. | medium, not executed | Patients.BuildPatients, Patients.EndDepotBecomesPatient | Patients.BuildPatientsCorrected |
