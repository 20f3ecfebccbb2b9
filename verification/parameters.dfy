/**
 * Parameter counting (`get_parameter_number` in main.py): the number of
 * scalar elements over all parameters of a network, and over the ones that
 * take gradients.
 */
module ParameterCount {

  /** One parameter tensor, reduced to its element count and its trainability. */
  datatype Parameter = Parameter(numel: nat, requiresGrad: bool)

  /** The dictionary `{'Total': ..., 'Trainable': ...}`. */
  datatype ParameterNumber = ParameterNumber(total: nat, trainable: nat)

  /**
   * Sum of the element counts of all parameters: at least each one's count,
   * and zero exactly when every parameter is empty.
   */
  function TotalCount(ps: seq<Parameter>): (r: nat)
    ensures forall i :: 0 <= i < |ps| ==> ps[i].numel <= r
    ensures r == 0 <==> forall i :: 0 <= i < |ps| ==> ps[i].numel == 0
  {
    if ps == [] then 0 else ps[0].numel + TotalCount(ps[1..])
  }

  /**
   * Sum of the element counts of the parameters with `requiresGrad` set: at
   * least each such parameter's count, and zero exactly when all of them are
   * empty.
   */
  function TrainableCount(ps: seq<Parameter>): (r: nat)
    ensures forall i :: 0 <= i < |ps| && ps[i].requiresGrad ==> ps[i].numel <= r
    ensures r == 0 <==> forall i :: 0 <= i < |ps| && ps[i].requiresGrad ==> ps[i].numel == 0
  {
    if ps == [] then 0
    else (if ps[0].requiresGrad then ps[0].numel else 0) + TrainableCount(ps[1..])
  }

  /**
   * The parameters that take gradients, in order: each one as often as it
   * occurs in the input, and no frozen one.
   */
  function RequiringGrad(ps: seq<Parameter>): (r: seq<Parameter>)
    ensures forall q :: multiset(r)[q] == if q.requiresGrad then multiset(ps)[q] else 0
  {
    if ps == [] then []
    else
      assert ps == [ps[0]] + ps[1..];
      (if ps[0].requiresGrad then [ps[0]] else []) + RequiringGrad(ps[1..])
  }

  /**
   * The parameters that are frozen, in order: each one as often as it occurs
   * in the input, and no gradient-taking one.
   */
  function Frozen(ps: seq<Parameter>): (r: seq<Parameter>)
    ensures forall q :: multiset(r)[q] == if q.requiresGrad then 0 else multiset(ps)[q]
  {
    if ps == [] then []
    else
      assert ps == [ps[0]] + ps[1..];
      (if ps[0].requiresGrad then [] else [ps[0]]) + Frozen(ps[1..])
  }

  /** Both sums, each over the same parameter list. */
  function GetParameterNumber(ps: seq<Parameter>): (r: ParameterNumber)
    ensures r.trainable <= r.total
    ensures r.trainable == TotalCount(RequiringGrad(ps))
    ensures r.total == r.trainable + TotalCount(Frozen(ps))
  {
    TrainableAtMostTotal(ps);
    TrainableIsTotalOfRequiringGrad(ps);
    TotalSplitsByTrainability(ps);
    ParameterNumber(TotalCount(ps), TrainableCount(ps))
  }

  /** The element count of a concatenation is the sum of the parts' counts. */
  lemma {:induction false} TotalCountAppend(a: seq<Parameter>, b: seq<Parameter>)
    ensures TotalCount(a + b) == TotalCount(a) + TotalCount(b)
    ensures TrainableCount(a + b) == TrainableCount(a) + TrainableCount(b)
  {
    if a != [] {
      assert (a + b)[1..] == a[1..] + b;
      TotalCountAppend(a[1..], b);
    } else {
      assert a + b == b;
    }
  }

  /** `Trainable` never exceeds `Total`. */
  lemma {:induction false} TrainableAtMostTotal(ps: seq<Parameter>)
    ensures TrainableCount(ps) <= TotalCount(ps)
  {
    if ps != [] {
      TrainableAtMostTotal(ps[1..]);
    }
  }

  /** `Trainable` is the total element count of the gradient-taking parameters. */
  lemma {:induction false} TrainableIsTotalOfRequiringGrad(ps: seq<Parameter>)
    ensures TrainableCount(ps) == TotalCount(RequiringGrad(ps))
  {
    if ps != [] {
      var head := if ps[0].requiresGrad then [ps[0]] else [];
      TrainableIsTotalOfRequiringGrad(ps[1..]);
      TotalCountAppend(head, RequiringGrad(ps[1..]));
    }
  }

  /** `Total` splits into the trainable part and the frozen part. */
  lemma {:induction false} TotalSplitsByTrainability(ps: seq<Parameter>)
    ensures TotalCount(ps) == TrainableCount(ps) + TotalCount(Frozen(ps))
  {
    if ps != [] {
      var head := if ps[0].requiresGrad then [] else [ps[0]];
      TotalSplitsByTrainability(ps[1..]);
      TotalCountAppend(head, Frozen(ps[1..]));
    }
  }

  /** `Trainable == Total` exactly when every frozen parameter is empty. */
  lemma {:induction false} AllTrainableIff(ps: seq<Parameter>)
    ensures TrainableCount(ps) == TotalCount(ps)
            <==> forall i :: 0 <= i < |ps| && !ps[i].requiresGrad ==> ps[i].numel == 0
  {
    if ps != [] {
      AllTrainableIff(ps[1..]);
      TrainableAtMostTotal(ps[1..]);
      if TrainableCount(ps) == TotalCount(ps) {
        forall i | 0 <= i < |ps| && !ps[i].requiresGrad ensures ps[i].numel == 0 {
          if i > 0 { assert ps[i] == ps[1..][i - 1]; }
        }
      } else if forall i :: 0 <= i < |ps| && !ps[i].requiresGrad ==> ps[i].numel == 0 {
        forall i | 0 <= i < |ps| - 1 && !ps[1..][i].requiresGrad ensures ps[1..][i].numel == 0 {
          assert ps[1..][i] == ps[i + 1];
        }
        assert false;
      }
    }
  }
}
