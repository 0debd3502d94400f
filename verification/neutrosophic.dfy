/** The three neutrosophic components computed per wallet by
    `utils/neutrosophic.py`. */
module Neutrosophic {

  /** A (truth, indeterminacy, falsity) triple. */
  datatype Vector = Vector(t: real, i: real, f: real)

  /** `compute_truth`: the total value in whole coins over 1000, capped at 1. */
  function Truth(totalValue: real): (t: real)
    ensures t <= 1.0
    ensures totalValue >= 0.0 ==> t >= 0.0
    ensures totalValue <= 1000.0 ==> t == totalValue / 1000.0
    ensures totalValue >= 1000.0 ==> t == 1.0
  {
    if totalValue / 1000.0 < 1.0 then totalValue / 1000.0 else 1.0
  }

  /** The truth component never decreases as the total value grows. */
  lemma TruthMonotone(a: real, b: real)
    requires a <= b
    ensures Truth(a) <= Truth(b)
  {
  }

  /** `compute_indeterminacy`: 0.3 for more than ten recent transactions,
      0.1 otherwise. */
  function Indeterminacy(recentTxCount: int): (i: real)
    ensures 0.0 <= i <= 1.0
    ensures i == 0.3 <==> recentTxCount > 10
    ensures i == 0.1 <==> recentTxCount <= 10
  {
    if recentTxCount > 10 then 0.3 else 0.1
  }

  /** `compute_falsity`: 0.1 for more than fifty transactions, 0.6 otherwise. */
  function Falsity(txCount: int): (f: real)
    ensures 0.0 <= f <= 1.0
    ensures f == 0.1 <==> txCount > 50
    ensures f == 0.6 <==> txCount <= 50
  {
    if txCount > 50 then 0.1 else 0.6
  }

  /** Indeterminacy never decreases, and falsity never increases, as the
      counts grow. */
  lemma CountComponentsMonotone(a: int, b: int)
    requires a <= b
    ensures Indeterminacy(a) <= Indeterminacy(b)
    ensures Falsity(a) >= Falsity(b)
  {
  }

  /** `compute_neutrosophic_vector`: each component is computed from its own
      argument alone and lies in its component's range. */
  function ComputeVector(totalValue: real, recentTxCount: int, txCount: int): (v: Vector)
    ensures v.t <= 1.0 && (totalValue >= 0.0 ==> 0.0 <= v.t)
    ensures v.i == 0.1 || v.i == 0.3
    ensures v.f == 0.1 || v.f == 0.6
  {
    Vector(Truth(totalValue), Indeterminacy(recentTxCount), Falsity(txCount))
  }

  /** Changing one argument of the vector changes at most its own component. */
  lemma VectorComponentsIndependent(total: real, recent: int, count: int,
                                    total': real, recent': int, count': int)
    ensures ComputeVector(total', recent, count).i == ComputeVector(total, recent, count).i
    ensures ComputeVector(total', recent, count).f == ComputeVector(total, recent, count).f
    ensures ComputeVector(total, recent', count).t == ComputeVector(total, recent, count).t
    ensures ComputeVector(total, recent', count).f == ComputeVector(total, recent, count).f
    ensures ComputeVector(total, recent, count').t == ComputeVector(total, recent, count).t
    ensures ComputeVector(total, recent, count').i == ComputeVector(total, recent, count).i
  {
  }
}
