/** The types the grid-search optimizer shares with the rest of the
    optimization framework: parameter bounds, loss values and the two
    result records. */
module OptimizationFramework {

  /** One (low, high) pair per parameter dimension. */
  type ParameterBounds = seq<(real, real)>

  /** A loss value as the optimizer compares it: a float without NaN, so
      either infinity or a finite number. */
  datatype Loss = NegInfinity | Finite(value: real) | PosInfinity {

    /** Float comparison `this < that`. */
    predicate Below(that: Loss) {
      match this
      case NegInfinity => !that.NegInfinity?
      case Finite(x) => that.PosInfinity? || (that.Finite? && x < that.value)
      case PosInfinity => false
    }

    /** Float comparison `this <= that` (the order has no NaN, so it is total). */
    predicate AtMost(that: Loss) {
      !that.Below(this)
    }
  }

  /** A scalar objective of a parameter vector. */
  type FocusLossFunction = seq<real> -> Loss

  /** A vector of objectives of a parameter vector. */
  type AllLossFunction = seq<real> -> seq<Loss>

  /** Outcome of a single-objective search. */
  datatype FocusOptimizationResult = FocusOptimizationResult(parameters: seq<real>, focusLoss: Loss)

  /** Outcome of the search for one component of a vector objective. */
  datatype AllOptimizationResult = AllOptimizationResult(parameters: seq<real>, allLoss: seq<Loss>, focusIndex: int)

  lemma BelowIsStrictTotalOrder(a: Loss, b: Loss, c: Loss)
    ensures !a.Below(a)
    ensures a.Below(b) && b.Below(c) ==> a.Below(c)
    ensures a.Below(b) || a == b || b.Below(a)
  {
  }
}
