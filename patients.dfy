/** Patients and service times (classes `patient` and `serviceTime` of
    src/grasphhcrsp.py) and the loop of the main block that derives the patient
    list from a loaded instance. */
module Patients {
  import opened HhcrspInstance

  /** One patient: its time window, its row of the service-requirement matrix,
      and whether it needs two services (the field `doubleservice`, stored by
      the source as 1 or 0). */
  datatype Patient = Patient(timeWindowBegin: int, timeWindowEnd: int, requiredServices: seq<int>, doubleService: bool)

  /** Start and end time of one service given to a patient. */
  datatype ServiceTime = ServiceTime(beg: real, end: real)

  /** One row of the service-time table: the main block builds it with two
      columns, slot 0 for the first service and slot 1 for the second. */
  datatype Slots = Slots(first: ServiceTime, second: ServiceTime)

  /** The nodes whose windows and requirements can be read. */
  predicate ReadableNodes(inst: Instance, hi: int)
  {
    hi <= |inst.e| && hi <= |inst.l| && hi <= |inst.r|
  }

  /** The patient the main block builds for `node`. */
  function PatientOf(inst: Instance, node: nat): (p: Patient)
    requires ReadableNodes(inst, node + 1)
    ensures p.timeWindowBegin == inst.e[node] && p.timeWindowEnd == inst.l[node]
    ensures p.requiredServices == inst.r[node]
    ensures p.doubleService <==> node in inst.DS
  {
    Patient(inst.e[node], inst.l[node], inst.r[node], node in inst.DS)
  }

  /** The patients of nodes lo, lo+1, ..., hi-1, in node order. */
  function PatientsOfNodes(inst: Instance, lo: nat, hi: int): (ps: seq<Patient>)
    requires lo < hi ==> ReadableNodes(inst, hi)
    ensures |ps| == if lo < hi then hi - lo else 0
    ensures forall k :: 0 <= k < |ps| ==> ps[k] == PatientOf(inst, lo + k)
    decreases hi - lo
  {
    if hi <= lo then [] else PatientsOfNodes(inst, lo, hi - 1) + [PatientOf(inst, hi - 1)]
  }

  /** The patient-list loop of the main block, as written: the guard
      `i != nbNodes` never holds inside `range(nbNodes)`, so only node 0 is
      skipped and the closing depot nbNodes-1 becomes a patient too. */
  method BuildPatients(inst: Instance) returns (patients: seq<Patient>)
    requires inst.nbNodes <= 1 || ReadableNodes(inst, inst.nbNodes)
    ensures patients == PatientsOfNodes(inst, 1, inst.nbNodes)
    ensures |patients| == Count(inst.nbNodes - 1)
    ensures forall k :: 0 <= k < |patients| ==> patients[k] == PatientOf(inst, k + 1)
  {
    patients := [];
    var i := 0;
    while i < inst.nbNodes
      invariant 0 <= i <= Count(inst.nbNodes)
      invariant patients == PatientsOfNodes(inst, 1, i)
    {
      if i != 0 && i != inst.nbNodes {
        var needy := i in inst.DS;
        var newPatient := Patient(inst.e[i], inst.l[i], inst.r[i], needy);
        patients := patients + [newPatient];
      }
      i := i + 1;
    }
  }

  /** The loop with the guard it evidently means, `i != nbNodes - 1`: both depot
      nodes 0 and nbNodes-1 are skipped, which gives the nbNodes-2 patients the
      service-time table of the main block has rows for. */
  method BuildPatientsCorrected(inst: Instance) returns (patients: seq<Patient>)
    requires inst.nbNodes <= 2 || ReadableNodes(inst, inst.nbNodes - 1)
    ensures patients == PatientsOfNodes(inst, 1, inst.nbNodes - 1)
    ensures |patients| == Count(inst.nbNodes - 2)
    ensures forall k :: 0 <= k < |patients| ==> patients[k] == PatientOf(inst, k + 1)
  {
    patients := [];
    var i := 0;
    while i < inst.nbNodes
      invariant 0 <= i <= Count(inst.nbNodes)
      invariant patients == PatientsOfNodes(inst, 1, if i < inst.nbNodes then i else inst.nbNodes - 1)
    {
      if i != 0 && i != inst.nbNodes - 1 {
        var needy := i in inst.DS;
        var newPatient := Patient(inst.e[i], inst.l[i], inst.r[i], needy);
        patients := patients + [newPatient];
      }
      i := i + 1;
    }
  }

  /** What the written guard lets through: for two or more nodes the list is
      the intended one followed by a patient built from the closing depot, so it
      is one longer than the nbNodes-2 rows of the service-time table. */
  lemma {:induction false} EndDepotBecomesPatient(inst: Instance)
    requires inst.nbNodes >= 2 && ReadableNodes(inst, inst.nbNodes)
    ensures PatientsOfNodes(inst, 1, inst.nbNodes)
         == PatientsOfNodes(inst, 1, inst.nbNodes - 1) + [PatientOf(inst, inst.nbNodes - 1)]
    ensures |PatientsOfNodes(inst, 1, inst.nbNodes)| == (inst.nbNodes - 2) + 1
  {
  }

  /** A concrete instance of it: with the two depots 0 and 3 and the patients 1
      and 2 of a four-node instance, the written loop yields three patients, the
      last one being depot 3. */
  lemma FourNodesGiveThreePatients()
    ensures var inst := Instance(4, 1, 1, [[0], [1], [1], [0]], [], [[1]], [0, 1, 2, 0], [0, 0, 0, 0],
                                 [], [], [0, 0, 0, 0], [0, 0, 0, 0], [0, 0, 0, 0], [0, 100, 100, 0]);
      && |PatientsOfNodes(inst, 1, 4)| == 3
      && PatientsOfNodes(inst, 1, 4)[2] == Patient(0, 0, [0], false)
      && PatientsOfNodes(inst, 1, 3) == [Patient(0, 100, [1], false), Patient(0, 100, [1], false)]
  {
    var inst := Instance(4, 1, 1, [[0], [1], [1], [0]], [], [[1]], [0, 1, 2, 0], [0, 0, 0, 0],
                         [], [], [0, 0, 0, 0], [0, 0, 0, 0], [0, 0, 0, 0], [0, 100, 100, 0]);
    assert PatientOf(inst, 3) == Patient(0, 0, [0], false);
    assert PatientOf(inst, 1) == Patient(0, 100, [1], false);
  }
}
