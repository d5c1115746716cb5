/** Lateness of services (`howLate` and `AlltheLateness` of src/grasphhcrsp.py)
    and the sum and maximum the objective adds up. */
module Lateness {
  import opened Patients

  /** howLate: how far a service ending at `endOfService` overruns the
      patient's window end, and 0 when it does not. */
  function HowLate(p: Patient, endOfService: real): (late: real)
    ensures late >= 0.0
    ensures late == 0.0 <==> endOfService <= p.timeWindowEnd as real
    ensures late > 0.0 ==> late == endOfService - p.timeWindowEnd as real
  {
    var lateness := endOfService - p.timeWindowEnd as real;
    if lateness <= 0.0 then 0.0 else lateness
  }

  /** Python's sum(): the values added up left to right. */
  function Sum(s: seq<real>): real
  {
    if s == [] then 0.0 else Sum(s[..|s| - 1]) + s[|s| - 1]
  }

  /** Python's max() of a non-empty list. */
  function Max(s: seq<real>): (m: real)
    requires |s| > 0
    ensures m in s
    ensures forall i :: 0 <= i < |s| ==> s[i] <= m
  {
    if |s| == 1 then s[0]
    else
      var front := Max(s[..|s| - 1]);
      if s[|s| - 1] > front then s[|s| - 1] else front
  }

  predicate NonNegative(s: seq<real>)
  {
    forall i :: 0 <= i < |s| ==> s[i] >= 0.0
  }

  /** The number of double-service patients, each of which adds a second entry. */
  function DoubleCount(patients: seq<Patient>): (n: nat)
    ensures n <= |patients|
  {
    if patients == [] then 0
    else DoubleCount(patients[..|patients| - 1]) + (if patients[|patients| - 1].doubleService then 1 else 0)
  }

  /** The entries one patient adds: the lateness of its first service and, for
      a double-service patient, that of its second. */
  function Entries(p: Patient, slots: Slots): (es: seq<real>)
    ensures |es| == if p.doubleService then 2 else 1
    ensures es[0] == HowLate(p, slots.first.end)
    ensures p.doubleService ==> es[1] == HowLate(p, slots.second.end)
  {
    if p.doubleService then [HowLate(p, slots.first.end), HowLate(p, slots.second.end)]
    else [HowLate(p, slots.first.end)]
  }

  /** listofLates: the entries of the patients in patient order, patient k
      being scored against row k of the service-time table. */
  function LatenessList(patients: seq<Patient>, times: seq<Slots>): (lates: seq<real>)
    requires |times| >= |patients|
    ensures |lates| == |patients| + DoubleCount(patients)
    ensures NonNegative(lates)
  {
    if patients == [] then []
    else
      var n := |patients| - 1;
      LatenessList(patients[..n], times) + Entries(patients[n], times[n])
  }

  /** Patient k's entries sit right after those of the patients before it. */
  lemma {:induction false} LatenessAt(patients: seq<Patient>, times: seq<Slots>, k: nat)
    requires |times| >= |patients| && k < |patients|
    ensures var lates, at := LatenessList(patients, times), k + DoubleCount(patients[..k]);
      && at < |lates| && lates[at] == HowLate(patients[k], times[k].first.end)
      && (patients[k].doubleService ==> at + 1 < |lates| && lates[at + 1] == HowLate(patients[k], times[k].second.end))
  {
    var n := |patients| - 1;
    var front := LatenessList(patients[..n], times);
    var es := Entries(patients[n], times[n]);
    assert LatenessList(patients, times) == front + es;
    if k < n {
      assert patients[..n][..k] == patients[..k];
      LatenessAt(patients[..n], times, k);
    } else {
      assert patients[..n] == patients[..k];
      assert |front| == k + DoubleCount(patients[..k]);
    }
  }

  /** The lateness list of a prefix is a prefix of the lateness list. */
  lemma {:induction false} LatenessListOfPrefix(patients: seq<Patient>, times: seq<Slots>, j: nat)
    requires |times| >= |patients| && j < |patients|
    ensures LatenessList(patients[..j + 1], times) == LatenessList(patients[..j], times) + Entries(patients[j], times[j])
  {
    assert patients[..j + 1][..j] == patients[..j];
  }

  /** Every service a patient needs ends by the patient's window end. */
  predicate OnTime(p: Patient, slots: Slots)
  {
    && slots.first.end <= p.timeWindowEnd as real
    && (p.doubleService ==> slots.second.end <= p.timeWindowEnd as real)
  }

  /** Every service of every patient ends by the patient's window end. */
  predicate AllOnTime(patients: seq<Patient>, times: seq<Slots>)
    requires |times| >= |patients|
  {
    forall k :: 0 <= k < |patients| ==> OnTime(patients[k], times[k])
  }

  predicate AllZero(s: seq<real>)
  {
    forall i :: 0 <= i < |s| ==> s[i] == 0.0
  }

  /** Adding one more value to the running total. */
  lemma SumSnoc(s: seq<real>, x: real)
    ensures Sum(s + [x]) == Sum(s) + x
  {
    assert (s + [x])[..|s|] == s;
  }

  /** What appending one patient's entries does to the list and to its sum,
      one entry at a time as the loop of AlltheLateness appends them. */
  lemma AppendEntries(before: seq<real>, p: Patient, slots: Slots)
    ensures var first, second := HowLate(p, slots.first.end), HowLate(p, slots.second.end);
      && (!p.doubleService ==>
            before + Entries(p, slots) == before + [first] && Sum(before + Entries(p, slots)) == Sum(before) + first)
      && (p.doubleService ==>
            before + Entries(p, slots) == before + [first] + [second]
            && Sum(before + Entries(p, slots)) == Sum(before) + first + second)
  {
    var first, second := HowLate(p, slots.first.end), HowLate(p, slots.second.end);
    SumSnoc(before, first);
    SumSnoc(before + [first], second);
    assert before + [first, second] == before + [first] + [second];
  }

  /** A sum of non-negative values is at least each of them. */
  lemma {:induction false} SumAtLeastEach(s: seq<real>, i: nat)
    requires NonNegative(s) && i < |s|
    ensures Sum(s) >= s[i]
  {
    var n := |s| - 1;
    if i < n {
      SumAtLeastEach(s[..n], i);
      assert NonNegative(s[..n]);
    } else {
      SumNonNegative(s[..n]);
    }
  }

  lemma {:induction false} SumNonNegative(s: seq<real>)
    requires NonNegative(s)
    ensures Sum(s) >= 0.0
  {
    if s != [] {
      SumNonNegative(s[..|s| - 1]);
    }
  }

  /** Sum >= Max >= 0 for non-negative values. */
  lemma SumDominatesMax(s: seq<real>)
    requires NonNegative(s) && |s| > 0
    ensures Sum(s) >= Max(s) >= 0.0
  {
    var i :| 0 <= i < |s| && s[i] == Max(s);
    SumAtLeastEach(s, i);
  }

  /** A sum of non-negative values is zero exactly when every value is. */
  lemma {:induction false} SumZeroIffAllZero(s: seq<real>)
    requires NonNegative(s)
    ensures Sum(s) == 0.0 <==> AllZero(s)
  {
    if s != [] {
      var n := |s| - 1;
      SumZeroIffAllZero(s[..n]);
      SumNonNegative(s[..n]);
      AllZeroAppend(s[..n], [s[n]]);
      assert s == s[..n] + [s[n]];
    }
  }

  /** A patient's entries are all zero exactly when it is served on time. */
  lemma EntriesZeroIffOnTime(p: Patient, slots: Slots)
    ensures AllZero(Entries(p, slots)) <==> OnTime(p, slots)
  {
    var es := Entries(p, slots);
    if p.doubleService {
      assert AllZero(es) <==> es[0] == 0.0 && es[1] == 0.0;
    }
  }

  lemma AllZeroAppend(s: seq<real>, t: seq<real>)
    ensures AllZero(s + t) <==> AllZero(s) && AllZero(t)
  {
    if AllZero(s) && AllZero(t) {
      forall i | 0 <= i < |s + t|
        ensures (s + t)[i] == 0.0
      {
        if i >= |s| {
          assert (s + t)[i] == t[i - |s|];
        }
      }
    }
    if AllZero(s + t) {
      forall i | 0 <= i < |s|
        ensures s[i] == 0.0
      {
        assert (s + t)[i] == s[i];
      }
      forall i | 0 <= i < |t|
        ensures t[i] == 0.0
      {
        assert (s + t)[|s| + i] == t[i];
      }
    }
  }

  /** No entry of the lateness list is positive exactly when every service
      ends on time. */
  lemma {:induction false} NoLatenessIffOnTime(patients: seq<Patient>, times: seq<Slots>)
    requires |times| >= |patients|
    ensures AllZero(LatenessList(patients, times)) <==> AllOnTime(patients, times)
  {
    if patients != [] {
      var n := |patients| - 1;
      var front := LatenessList(patients[..n], times);
      var es := Entries(patients[n], times[n]);
      NoLatenessIffOnTime(patients[..n], times);
      assert LatenessList(patients, times) == front + es;
      AllZeroAppend(front, es);
      EntriesZeroIffOnTime(patients[n], times[n]);
      assert AllOnTime(patients, times) <==> AllOnTime(patients[..n], times) && OnTime(patients[n], times[n]) by {
        if AllOnTime(patients[..n], times) && OnTime(patients[n], times[n]) {
          forall k | 0 <= k < |patients|
            ensures OnTime(patients[k], times[k])
          {
            if k < n {
              assert patients[..n][k] == patients[k];
            }
          }
        }
      }
    }
  }

  /** The total lateness is zero exactly when every service ends on time. */
  lemma TotalZeroIffOnTime(patients: seq<Patient>, times: seq<Slots>)
    requires |times| >= |patients|
    ensures Sum(LatenessList(patients, times)) == 0.0 <==> AllOnTime(patients, times)
  {
    SumZeroIffAllZero(LatenessList(patients, times));
    NoLatenessIffOnTime(patients, times);
  }

  /** The total lateness equals the largest one exactly when at most one
      service is late. */
  lemma {:induction false} SumEqualsMaxIff(s: seq<real>)
    requires NonNegative(s) && |s| > 0
    ensures Sum(s) == Max(s) <==> AtMostOnePositive(s)
  {
    var i :| 0 <= i < |s| && s[i] == Max(s);
    if AtMostOnePositive(s) {
      SumOfSingleSupport(s, i);
    } else {
      var j, k :| 0 <= j < k < |s| && s[j] != 0.0 && s[k] != 0.0;
      var m := if i != j then j else k;
      if m < i {
        SumAtLeastPair(s, m, i);
      } else {
        SumAtLeastPair(s, i, m);
      }
    }
  }

  predicate AtMostOnePositive(s: seq<real>)
  {
    forall j, k :: 0 <= j < k < |s| ==> s[j] == 0.0 || s[k] == 0.0
  }

  lemma OneOfPairZero(s: seq<real>, i: nat, j: nat)
    requires AtMostOnePositive(s) && i < |s| && j < |s| && i != j
    ensures s[i] == 0.0 || s[j] == 0.0
  {
    if i > j {
      assert s[j] == 0.0 || s[i] == 0.0;
    }
  }

  /** When every entry but entry i is zero, the sum is entry i. */
  lemma {:induction false} SumOfSingleSupport(s: seq<real>, i: nat)
    requires NonNegative(s) && i < |s| && AtMostOnePositive(s) && s[i] == Max(s)
    ensures Sum(s) == s[i]
  {
    forall j | 0 <= j < |s| && j != i
      ensures s[j] == 0.0
    {
      OneOfPairZero(s, i, j);
    }
    SumOfZerosBut(s, i);
  }

  lemma {:induction false} SumOfZerosBut(s: seq<real>, i: nat)
    requires i < |s| && forall j :: 0 <= j < |s| && j != i ==> s[j] == 0.0
    ensures Sum(s) == s[i]
  {
    var n := |s| - 1;
    if i < n {
      SumOfZerosBut(s[..n], i);
    } else {
      SumOfZeros(s[..n]);
    }
  }

  lemma {:induction false} SumOfZeros(s: seq<real>)
    requires forall j :: 0 <= j < |s| ==> s[j] == 0.0
    ensures Sum(s) == 0.0
  {
    if s != [] {
      SumOfZeros(s[..|s| - 1]);
    }
  }

  /** Two positive entries make the sum exceed each of them. */
  lemma {:induction false} SumAtLeastPair(s: seq<real>, j: nat, k: nat)
    requires NonNegative(s) && j < k < |s|
    ensures Sum(s) >= s[j] + s[k]
  {
    var n := |s| - 1;
    if k < n {
      SumAtLeastPair(s[..n], j, k);
    } else {
      SumAtLeastEach(s[..n], j);
    }
    var t := Max(s);
    assert t >= s[j] && t >= s[k];
  }

  /** AlltheLateness: one pass over the patients accumulating the total and the
      list of lateness values; the maximum is Python's max() of that list, which
      is why the patient list must not be empty. The source tests
      `i.isNeedful`, a name the patient class does not have; the field it
      evidently means is `doubleservice`, used here. */
  method AlltheLateness(patients: seq<Patient>, times: seq<Slots>) returns (total: real, biggest: real, lates: seq<real>)
    requires |patients| > 0 && |times| >= |patients|
    ensures lates == LatenessList(patients, times)
    ensures |lates| == |patients| + DoubleCount(patients)
    ensures total == Sum(lates) && biggest == Max(lates)
    ensures total >= biggest >= 0.0
    ensures total == 0.0 <==> AllOnTime(patients, times)
  {
    total := 0.0;
    lates := [];
    var index := 0;
    while index < |patients|
      invariant index <= |patients|
      invariant lates == LatenessList(patients[..index], times)
      invariant total == Sum(lates)
    {
      var p := patients[index];
      AppendEntries(lates, p, times[index]);
      LatenessListOfPrefix(patients, times, index);
      var late := HowLate(p, times[index].first.end);
      total := total + late;
      lates := lates + [late];
      if p.doubleService {
        late := HowLate(p, times[index].second.end);
        total := total + late;
        lates := lates + [late];
      }
      index := index + 1;
    }
    assert patients[..index] == patients;
    biggest := Max(lates);
    SumDominatesMax(lates);
    TotalZeroIffOnTime(patients, times);
  }
}
